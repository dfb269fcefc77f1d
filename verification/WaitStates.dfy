/** Everything about semaphores and wait lists in the present protocol, as values: the state,
    the three steps it takes, and the invariant that ties it to the history. */
module WaitStates {
  import opened Presentation
  import opened Swapchains
  import opened Histories

  /** A frame slot: the semaphore it signals and the ones it waits for. */
  datatype Slot = Slot(signal: nat, waits: seq<nat>)

  datatype State = State(
    handed: seq<Handed>, consumed: nat, presents: seq<PresentCall>, skip: bool,
    generation: nat, semaphores: seq<bool>, slots: seq<Slot>)

  /** A semaphore that was handed out is the current one of a slot exactly if it was handed
      out for that slot by the current swapchain. */
  predicate NameOk(s: State, j: nat)
    requires j < |s.handed|
  {
    var h := s.handed[j];
    && h.frame < |s.slots| && h.semaphore < |s.semaphores|
    && forall i | 0 <= i < |s.slots| ::
         s.slots[i].signal == h.semaphore <==> i == h.frame && h.generation == s.generation
  }

  /** The semaphore of a slot has a pending signal exactly if the history says so. */
  predicate SignalOk(s: State, i: nat)
    requires i < |s.slots|
  {
    && s.slots[i].signal < |s.semaphores|
    && (s.semaphores[s.slots[i].signal] <==> Busy(s.handed, |s.presents|, i, s.generation))
  }

  /** A slot waits for what the history says, and every signal it waits for is pending. */
  predicate WaitsKnown(s: State, i: nat)
    requires i < |s.slots| && s.consumed <= |s.handed|
  {
    && s.slots[i].waits == ListOf(s.handed, i, s.consumed)
    && AllPending(s.semaphores, s.slots[i].waits)
  }

  predicate Shape(s: State) {
    && s.consumed <= |s.handed| <= s.consumed + 1
    && |s.presents| <= s.consumed && (!s.skip ==> |s.presents| == s.consumed)
    && NotLater(s.handed, s.generation)
  }

  ghost predicate Fair(s: State) {
    && Shape(s) && NamesApart(s.handed)
    && (forall j | 0 <= j < |s.handed| :: NameOk(s, j))
    && (forall i | 0 <= i < |s.slots| :: SignalOk(s, i))
    && (forall i | 0 <= i < |s.slots| :: WaitsKnown(s, i))
    && WaitsOk(s.presents, s.handed) && AllFreeOk(s.handed, |s.presents|)
  }

  // ---------------------------------------------------------------- the image is consumed

  /** The oldest image is presented, unless presenting is off, and its wait list emptied. */
  ghost predicate Consumes(s: State, t: State) {
    && |s.handed| == s.consumed + 1 && s.handed[s.consumed].image < |s.slots|
    && var image := s.handed[s.consumed].image;
       var waits := s.slots[image].waits;
    && t.handed == s.handed && t.consumed == s.consumed + 1 && t.skip == s.skip && t.generation == s.generation
    && (if s.skip then t.presents == s.presents else
          && |t.presents| == |s.presents| + 1 && t.presents[..|s.presents|] == s.presents
          && t.presents[|s.presents|].waits == waits
          && t.presents[|s.presents|].ready == AllPending(s.semaphores, waits))
    && |t.semaphores| == |s.semaphores|
    && (forall x | 0 <= x < |s.semaphores| :: t.semaphores[x] == (s.semaphores[x] && (s.skip || x !in waits)))
    && t.slots == s.slots[image := Slot(s.slots[image].signal, [])]
  }

  lemma {:induction false} ConsumedNames(s: State, t: State, i: nat)
    requires Fair(s) && Consumes(s, t) && i < |s.slots|
    ensures SignalOk(t, i)
  {
    var hs, c, image := s.handed, s.consumed, s.handed[s.consumed].image;
    assert SignalOk(s, i) && WaitsKnown(s, image);
    if !s.skip {
      BusyPresented(hs, c, i, s.generation);
      if i == image && Busy(hs, c, i, s.generation) {
        var e := BusyListed(hs, c, i, s.generation);
        assert NameOk(s, e);
      } else if i != image {
        ListFrames(hs, image, c);
        forall q | 0 <= q < |hs| && hs[q].frame == image ensures hs[q].semaphore != s.slots[i].signal {
          assert NameOk(s, q);
        }
      }
    }
  }

  /** Lists of different slots have nothing in common. */
  lemma {:induction false} ListsApart(hs: seq<Handed>, c: nat, i: nat, j: nat)
    requires NamesApart(hs) && c <= |hs| && i != j
    ensures forall w | w in ListOf(hs, i, c) :: w !in ListOf(hs, j, c)
  {
    ListFrames(hs, i, c);
    ListFrames(hs, j, c);
    forall q, q' | 0 <= q < |hs| && 0 <= q' < |hs| && hs[q].frame == i && hs[q'].frame == j
      ensures hs[q].semaphore != hs[q'].semaphore
    {
      assert SameName(hs, q, q') <==> SameSlot(hs, q, q');
    }
  }

  lemma {:induction false} ConsumedWaits(s: State, t: State, i: nat)
    requires Fair(s) && Consumes(s, t) && i < |s.slots|
    ensures WaitsKnown(t, i)
  {
    var hs, c, image := s.handed, s.consumed, s.handed[s.consumed].image;
    assert WaitsKnown(s, i) && WaitsKnown(s, image);
    ListConsumed(hs, i, c);
    if i != image {
      ListsApart(hs, c, i, image);
    }
  }

  /** The present waits for the list of its image, all of it pending. */
  lemma {:induction false} ConsumedPresent(s: State, t: State)
    requires Fair(s) && Consumes(s, t) && !s.skip
    ensures t.presents == s.presents + [t.presents[s.consumed]]
    ensures t.presents[s.consumed].ready
    ensures t.presents[s.consumed].waits == ListOf(s.handed, s.handed[s.consumed].image, s.consumed)
  {
    assert WaitsKnown(s, s.handed[s.consumed].image);
  }

  lemma {:induction false} ConsumedFree(s: State, t: State)
    requires Shape(s) && AllFreeOk(s.handed, |s.presents|) && Consumes(s, t)
    ensures AllFreeOk(t.handed, |t.presents|)
  {
    if !s.skip {
      FreePresented(s.handed, s.consumed);
    }
  }

  lemma {:induction false} ConsumedPresents(s: State, t: State)
    requires Fair(s) && Consumes(s, t)
    ensures |t.presents| <= |t.handed| && WaitsOk(t.presents, t.handed)
  {
    if !s.skip {
      ConsumedPresent(s, t);
      WaitsPresented(s.presents, s.handed, t.presents[s.consumed]);
    }
  }

  lemma {:induction false} FairConsumed(s: State, t: State)
    requires Fair(s) && Consumes(s, t)
    ensures Fair(t)
  {
    ConsumedPresents(s, t);
    ConsumedFree(s, t);
    forall i | 0 <= i < |t.slots| ensures SignalOk(t, i) && WaitsKnown(t, i) {
      ConsumedNames(s, t, i);
      ConsumedWaits(s, t, i);
    }
    forall j | 0 <= j < |t.handed| ensures NameOk(t, j) {
      assert NameOk(s, j);
    }
  }

  // ---------------------------------------------------------------- an image is handed out

  ghost predicate Hands(s: State, t: State, h: Handed) {
    && |s.handed| == s.consumed && h.frame < |s.slots|
    && var x := s.slots[h.frame].signal;
    && x < |s.semaphores| && h.semaphore == x && h.generation == s.generation && h.free == !s.semaphores[x]
    && t == s.(handed := s.handed + [h], semaphores := s.semaphores[x := true],
               slots := s.slots[h.frame := Slot(x, s.slots[h.frame].waits + [x])])
  }

  /** No two slots signal the same semaphore. */
  predicate SignalsApart(s: State) {
    forall i, j | 0 <= i < j < |s.slots| :: s.slots[i].signal != s.slots[j].signal
  }

  lemma {:induction false} HandedNames(s: State, t: State, h: Handed)
    requires Fair(s) && Hands(s, t, h) && SignalsApart(s)
    ensures NamesApart(t.handed) && forall j | 0 <= j < |t.handed| :: NameOk(t, j)
  {
    forall j | 0 <= j < |s.handed|
      ensures NameOk(t, j)
      ensures s.handed[j].semaphore == h.semaphore <==>
              s.handed[j].frame == h.frame && s.handed[j].generation == h.generation
    {
      assert NameOk(s, j);
    }
    assert NameOk(t, |s.handed|);
    forall i, j | 0 <= i < |t.handed| && 0 <= j < |t.handed| ensures SameName(t.handed, i, j) <==> SameSlot(t.handed, i, j) {
      assert i < |s.handed| && j < |s.handed| ==> (SameName(s.handed, i, j) <==> SameSlot(s.handed, i, j));
    }
  }

  lemma {:induction false} HandedSlot(s: State, t: State, h: Handed, i: nat)
    requires Fair(s) && Hands(s, t, h) && SignalsApart(s) && i < |s.slots|
    ensures SignalOk(t, i) && WaitsKnown(t, i)
  {
    assert SignalOk(s, i) && SignalOk(s, h.frame) && WaitsKnown(s, i);
    BusyHanded(s.handed, |s.presents|, h, i, s.generation);
    ListHanded(s.handed, h, i);
  }

  lemma {:induction false} FairHanded(s: State, t: State, h: Handed)
    requires Fair(s) && Hands(s, t, h) && SignalsApart(s)
    ensures Fair(t)
  {
    HandedNames(s, t, h);
    assert SignalOk(s, h.frame);
    FreeHanded(s.handed, |s.presents|, h);
    WaitsHanded(s.presents, s.handed, h);
    forall i | 0 <= i < |t.slots| ensures SignalOk(t, i) && WaitsKnown(t, i) {
      HandedSlot(s, t, h, i);
    }
  }

  // ---------------------------------------------------------------- the swapchain is made again

  /** New, free semaphores; old lists; nothing that was pending has been waited for. */
  ghost predicate Renews(s: State, t: State) {
    && |s.handed| == s.consumed && t.handed == s.handed && t.consumed == s.consumed && t.presents == s.presents
    && (s.skip ==> t.skip) && t.generation == s.generation + 1
    && |s.slots| <= |t.slots| && |s.semaphores| <= |t.semaphores|
    && (forall x | 0 <= x < |s.semaphores| && s.semaphores[x] :: t.semaphores[x])
    && (forall i | 0 <= i < |t.slots| ::
          t.slots[i].waits == if i < |s.slots| then s.slots[i].waits else [])
    && (forall i | 0 <= i < |t.slots| ::
          |s.semaphores| <= t.slots[i].signal < |t.semaphores| && !t.semaphores[t.slots[i].signal])
  }

  lemma {:induction false} FairRenewed(s: State, t: State)
    requires Fair(s) && Renews(s, t)
    ensures Fair(t)
  {
    forall j | 0 <= j < |t.handed| ensures NameOk(t, j) {
      assert NameOk(s, j);
    }
    forall i | 0 <= i < |t.slots| ensures SignalOk(t, i) && WaitsKnown(t, i) {
      BusyRenewed(s.handed, |s.presents|, i, s.generation);
      if i < |s.slots| {
        assert WaitsKnown(s, i);
      } else {
        forall j | 0 <= j < |s.handed| ensures s.handed[j].frame != i {
          assert NameOk(s, j);
        }
        ListUnused(s.handed, i, s.consumed);
      }
    }
  }
}
