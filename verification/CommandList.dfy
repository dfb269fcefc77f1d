/** What a chain means to its client: one command list, a dirty flag and the lists
    already sent.  No ring, no replication mode, no fences.  `Chains` proves that every
    operation of a chain refines a step of this machine; here are the laws of all its
    runs. */
module CommandList {
  import opened Wrappers
  import opened Layouts
  import opened Driver
  import opened Framebuffers

  /** The recording operations of a chain with their arguments. */
  datatype Operation =
    | CopyBuffers(src: nat, dst: nat, amount: nat, elementSize: nat, srcOffset: nat, dstOffset: nat)
    | CopyImages(srcImage: nat, srcLayout: VkLayout, dstImage: nat, dstLayout: VkLayout)
    | CopyFromImage(srcImage: nat, dst: nat)
    | FillImage(src: nat, dstImage: nat)
    | Transition(image: nat, oldLayout: VkLayout, newLayout: VkLayout)
    | Barrier(srcStage: nat, dstStage: nat)
    | MemoryBarrier(buffer: nat)
    | DrawVertices(pipeline: nat, descriptor: Option<nat>, vertices: nat, count: nat, offset: nat, instances: nat)
    | DrawIndices(pipeline: nat, descriptor: Option<nat>, indices: nat, vertices: nat, count: nat, instances: nat)
    | Push(pipeline: nat, value: nat, byteSize: nat, offset: nat)
  {
    predicate IsDraw() {
      DrawVertices? || DrawIndices?
    }

    /** The commands one slot receives. */
    function Commands(): seq<Command> {
      match this
      case CopyBuffers(src, dst, n, size, from, to) =>
        // the byte count is a 32-bit product
        [CopyBuffer(src, dst, n * size % 0x1_0000_0000, from, to)]
      case CopyImages(src, srcLayout, dst, dstLayout) => [CopyImage(src, srcLayout, dst, dstLayout)]
      case CopyFromImage(src, dst) => [CopyImageToBuffer(src, dst)]
      case FillImage(src, dst) => [CopyBufferToImage(src, dst)]
      case Transition(image, from, to) => if to.VkUndefined? then [] else [ImageBarrier(image, from, to)]
      case Barrier(src, dst) => [PipelineBarrier(src, dst)]
      case MemoryBarrier(buffer) => [BufferBarrier(buffer)]
      case DrawVertices(p, d, vertices, n, offset, instances) =>
        Bind(p, d) + [BindVertexBuffer(vertices, offset), Draw(n, instances)]
      case DrawIndices(p, d, indices, vertices, n, instances) =>
        Bind(p, d) + [BindVertexBuffer(vertices, 0), BindIndexBuffer(indices), DrawIndexed(n, instances)]
      case Push(p, value, size, offset) =>
        [BindPipeline(p)] + (if size < 256 then [PushConstants(p, offset, (256 - offset) % 0x1_0000_0000, value)] else [])
    }

    static function Bind(pipeline: nat, descriptor: Option<nat>): seq<Command> {
      [BindPipeline(pipeline)] + (if descriptor.Some? then [BindDescriptorSet(pipeline, descriptor.value)] else [])
    }
  }

  datatype List = List(
    recording: bool,
    inPass: bool,
    commands: seq<Command>,      // what the next submission would send
    dirty: bool,
    hasRecord: bool,
    sent: seq<seq<Command>>,
    pass: Option<PassView>)
  {
    predicate PassOk() {
      pass.Some? ==> pass.value.Valid()
    }

    /** Recording starts unless it is already on. */
    function Opened(usePass: bool): List
      requires PassOk()
    {
      if recording then this
      else if usePass && pass.Some? && pass.value.initialized then
        this.(recording := true, inPass := true,
              commands := [BeginRenderPass(pass.value.framebuffers[pass.value.current])])
      else
        this.(recording := true, inPass := false, commands := [])
    }

    /** Draws and constants ask for a render pass, everything else does not. */
    function Performed(op: Operation): List
      requires PassOk()
    {
      Opened(op.IsDraw() || op.Push?).Extended(op)
    }

    /** One more operation on an open list. */
    function Extended(op: Operation): List {
      this.(commands := commands + op.Commands(),
            dirty := dirty || op.Commands() != [],
            hasRecord := hasRecord || op.IsDraw())
    }

    /** An image that is in the given layout is filled from a buffer, between a transition
        and the transition back. */
    function Filled(src: nat, image: nat, layout: VkLayout): List
      requires PassOk()
    {
      Performed(Transition(image, layout, VkTransferDst))
      .Performed(FillImage(src, image))
      .Performed(Transition(image, VkTransferDst, layout))
    }

    function Closed(): List {
      if !recording then this
      else this.(recording := false, inPass := false, hasRecord := true,
                 commands := if dirty then commands + (if inPass then [EndRenderPass] else []) else [])
    }

    function Submitted(): List {
      var c := Closed();
      if c.hasRecord && c.dirty then
        c.(dirty := false, sent := sent + [c.commands], commands := [],
           pass := if pass.Some? then Some(pass.value.Advanced()) else None)
      else c
    }

    /** The state of every chain reached from a fresh one. */
    ghost predicate Good() {
      && PassOk()
      && (inPass ==> recording)
      && (dirty ==> recording || hasRecord)
      && (!recording && !dirty ==> commands == [])
      && (recording ==> OpenLog(commands, inPass))
      && (!recording && dirty ==> ClosedLog(commands))
      && (forall i | 0 <= i < |sent| :: ClosedLog(sent[i]))
    }

    /** The dirty flag tells whether there are client commands to send. */
    ghost predicate Honest() {
      Good() && (dirty <==> Payload(commands) != [])
    }
  }

  /** What a client, another user of the same render pass, or a recreation of that pass
      can do between two operations of this chain. */
  datatype Event =
    | Begin
    | Perform(op: Operation)
    | End
    | Submit
    | SetMode(all: bool)
    | PassAdvanced
    | PassRebuilt(handles: seq<nat>)

  predicate Legal(s: List, e: Event) {
    match e
    case SetMode(_) => !s.recording
    case PassAdvanced => s.pass.Some?
    case PassRebuilt(handles) => s.pass.Some? && |handles| == NUM_BUFFERS
    case _ => true
  }

  function Step(s: List, e: Event): (r: List)
    requires s.PassOk() && Legal(s, e)
    ensures r.PassOk()
  {
    match e
    case Begin => s.Opened(true)
    case Perform(op) => s.Performed(op)
    case End => s.Closed()
    case Submit => s.Submitted()
    case SetMode(_) => s
    case PassAdvanced => s.(pass := Some(s.pass.value.Advanced()))
    case PassRebuilt(handles) => s.(pass := Some(s.pass.value.Rebuilt(handles)))
  }

  predicate LegalRun(s: List, events: seq<Event>)
    requires s.PassOk()
    decreases |events|
  {
    events == [] || (Legal(s, events[0]) && LegalRun(Step(s, events[0]), events[1..]))
  }

  function Run(s: List, events: seq<Event>): (r: List)
    requires s.PassOk() && LegalRun(s, events)
    ensures r.PassOk()
    decreases |events|
  {
    if events == [] then s else Run(Step(s, events[0]), events[1..])
  }

  // ---------------------------------------------------------------- shapes of logs

  predicate IsPassCommand(c: Command) {
    c.BeginRenderPass? || c.EndRenderPass?
  }

  /** The commands a client asked for, without the render-pass brackets. */
  function Payload(log: seq<Command>): seq<Command> {
    if log == [] then []
    else (if IsPassCommand(log[0]) then [] else [log[0]]) + Payload(log[1..])
  }

  ghost predicate Plain(log: seq<Command>) {
    forall i | 0 <= i < |log| :: !IsPassCommand(log[i])
  }

  /** A log still being recorded: at most one render pass, begun first. */
  ghost predicate OpenLog(log: seq<Command>, inPass: bool) {
    if inPass then log != [] && log[0].BeginRenderPass? && Plain(log[1..]) else Plain(log)
  }

  /** A finished log: plain, or one render pass that is begun first and ended last. */
  ghost predicate ClosedLog(log: seq<Command>) {
    || Plain(log)
    || (&& |log| >= 2 && log[0].BeginRenderPass? && log[|log| - 1].EndRenderPass?
        && Plain(log[1..|log| - 1]))
  }

  lemma {:induction false} PayloadConcat(a: seq<Command>, b: seq<Command>)
    ensures Payload(a + b) == Payload(a) + Payload(b)
  {
    if a == [] {
      assert a + b == b;
    } else {
      assert (a + b)[1..] == a[1..] + b;
      PayloadConcat(a[1..], b);
    }
  }

  lemma {:induction false} PayloadPlain(a: seq<Command>)
    requires Plain(a)
    ensures Payload(a) == a
  {
    if a != [] {
      PayloadPlain(a[1..]);
    }
  }

  lemma {:induction false} CommandsArePlain(op: Operation)
    ensures Plain(op.Commands())
    ensures !op.Transition? ==> op.Commands() != []
  {
  }

  /** `Good` holds of every reachable state: whatever the interleaving of operations,
      submissions and changes of the render pass, the render-pass brackets of each
      log sent to the queue match. */
  lemma {:induction false} GoodStep(s: List, e: Event)
    requires s.Good() && Legal(s, e)
    ensures Step(s, e).Good()
  {
    match e
    case Begin => GoodOpened(s, true);
    case Perform(op) => GoodPerformed(s, op);
    case End => GoodClosed(s);
    case Submit => GoodClosed(s);
    case SetMode(_) =>
    case PassAdvanced =>
    case PassRebuilt(_) =>
  }

  lemma {:induction false} GoodOpened(s: List, usePass: bool)
    requires s.Good()
    ensures s.Opened(usePass).Good() && s.Opened(usePass).recording
  {
    if !s.recording && usePass && s.pass.Some? && s.pass.value.initialized {
      var log := [BeginRenderPass(s.pass.value.framebuffers[s.pass.value.current])];
      assert log[1..] == [];
    }
  }

  lemma {:induction false} AppendOpen(log: seq<Command>, inPass: bool, more: seq<Command>)
    requires OpenLog(log, inPass) && Plain(more)
    ensures OpenLog(log + more, inPass)
  {
    if inPass {
      assert (log + more)[1..] == log[1..] + more;
    }
  }

  lemma {:induction false} GoodPerformed(s: List, op: Operation)
    requires s.Good()
    ensures s.Performed(op).Good()
  {
    var usePass := op.IsDraw() || op.Push?;
    GoodOpened(s, usePass);
    var o, more := s.Opened(usePass), op.Commands();
    CommandsArePlain(op);
    AppendOpen(o.commands, o.inPass, more);
  }

  lemma {:induction false} GoodClosed(s: List)
    requires s.Good()
    ensures s.Closed().Good()
  {
    if s.recording && s.dirty && s.inPass {
      var log := s.commands + [EndRenderPass];
      assert log[1..|log| - 1] == s.commands[1..];
      assert ClosedLog(log);
    }
  }

  lemma {:induction false} GoodRun(s: List, events: seq<Event>)
    requires s.Good() && LegalRun(s, events)
    ensures Run(s, events).Good()
    decreases |events|
  {
    if events != [] {
      GoodStep(s, events[0]);
      GoodRun(Step(s, events[0]), events[1..]);
    }
  }

  // ---------------------------------------------------------------- subsequences

  /** `a` is `b` with some elements left out. */
  predicate Subsequence<T(==)>(a: seq<T>, b: seq<T>) {
    if a == [] then true
    else if b == [] then false
    else Subsequence(a, b[..|b| - 1])
         || (a[|a| - 1] == b[|b| - 1] && Subsequence(a[..|a| - 1], b[..|b| - 1]))
  }

  /** That is, the elements of `a` stand in `b` at increasing positions. */
  lemma {:induction false} SubsequencePositions<T>(a: seq<T>, b: seq<T>) returns (at: seq<nat>)
    requires Subsequence(a, b)
    ensures |at| == |a| && forall k | 0 <= k < |a| :: at[k] < |b| && b[at[k]] == a[k]
    ensures forall k, l | 0 <= k < l < |at| :: at[k] < at[l]
  {
    if a == [] {
      at := [];
    } else if Subsequence(a, b[..|b| - 1]) {
      at := SubsequencePositions(a, b[..|b| - 1]);
    } else {
      var front := SubsequencePositions(a[..|a| - 1], b[..|b| - 1]);
      at := front + [|b| - 1];
    }
  }

  lemma {:induction false} SubsequenceSelf<T>(a: seq<T>)
    ensures Subsequence(a, a)
  {
    if a != [] {
      SubsequenceSelf(a[..|a| - 1]);
    }
  }

  lemma {:induction false} SubsequenceLength<T>(a: seq<T>, b: seq<T>)
    requires Subsequence(a, b)
    ensures |a| <= |b|
  {
    if a != [] {
      if Subsequence(a, b[..|b| - 1]) {
        SubsequenceLength(a, b[..|b| - 1]);
      } else {
        SubsequenceLength(a[..|a| - 1], b[..|b| - 1]);
      }
    }
  }

  lemma {:induction false} SubsequencePrefix<T>(a: seq<T>, more: seq<T>)
    ensures Subsequence(a, a + more)
  {
    if more == [] {
      SubsequenceSelf(a);
      assert a + more == a;
    } else {
      SubsequencePrefix(a, more[..|more| - 1]);
      assert (a + more)[..|a + more| - 1] == a + more[..|more| - 1];
    }
  }

  lemma {:induction false} SubsequenceAppend<T>(a: seq<T>, b: seq<T>, c: seq<T>)
    requires Subsequence(a, b)
    ensures Subsequence(a + c, b + c)
  {
    if c == [] {
      assert a + c == a && b + c == b;
    } else {
      var front := c[..|c| - 1];
      SubsequenceAppend(a, b, front);
      assert (a + c)[..|a + c| - 1] == a + front && (b + c)[..|b + c| - 1] == b + front;
    }
  }

  lemma {:induction false} SubsequenceTransitive<T>(a: seq<T>, b: seq<T>, c: seq<T>)
    requires Subsequence(a, b) && Subsequence(b, c)
    ensures Subsequence(a, c)
    decreases |b| + |c|
  {
    if a != [] {
      var front := c[..|c| - 1];
      if Subsequence(b, front) {
        SubsequenceTransitive(a, b, front);
      } else if Subsequence(a, b[..|b| - 1]) {
        SubsequenceTransitive(a, b[..|b| - 1], front);
      } else {
        SubsequenceTransitive(a[..|a| - 1], b[..|b| - 1], front);
      }
    }
  }

  // ---------------------------------------------------------------- exactly once

  function Concat(logs: seq<seq<Command>>): seq<Command> {
    if logs == [] then [] else Concat(logs[..|logs| - 1]) + logs[|logs| - 1]
  }

  /** Every client command that was sent or is still to be sent, in order. */
  function Kept(s: List): seq<Command> {
    Payload(Concat(s.sent)) + Payload(s.commands)
  }

  /** Every command a client asked for. */
  function Asked(events: seq<Event>): seq<Command> {
    if events == [] then []
    else (if events[0].Perform? then events[0].op.Commands() else []) + Asked(events[1..])
  }

  /** Recording restarts although a list that was ended has not been submitted. */
  predicate Discards(s: List, e: Event) {
    (e.Begin? || e.Perform?) && !s.recording && s.dirty
  }

  predicate DiscardFree(s: List, events: seq<Event>)
    requires s.PassOk() && LegalRun(s, events)
    decreases |events|
  {
    events == [] || (!Discards(s, events[0]) && DiscardFree(Step(s, events[0]), events[1..]))
  }

  lemma {:induction false} KeptPerformed(s: List, op: Operation)
    requires s.Good()
    ensures Kept(s.Performed(op)) ==
      (if s.recording then Kept(s) else Payload(Concat(s.sent))) + op.Commands()
  {
    var usePass := op.IsDraw() || op.Push?;
    KeptOpened(s, usePass);
    CommandsArePlain(op);
    AppendPayload(s.Opened(usePass), op.Commands());
  }

  lemma {:induction false} AppendPayload(o: List, more: seq<Command>)
    requires Plain(more)
    ensures Payload(o.commands + more) == Payload(o.commands) + more
    ensures Payload(Concat(o.sent)) + Payload(o.commands + more) == Kept(o) + more
  {
    PayloadConcat(o.commands, more);
    PayloadPlain(more);
  }

  lemma {:induction false} KeptOpened(s: List, usePass: bool)
    requires s.Good()
    ensures Kept(s.Opened(usePass)) == if s.recording then Kept(s) else Payload(Concat(s.sent))
  {
    if !s.recording && usePass && s.pass.Some? && s.pass.value.initialized {
      var log := [BeginRenderPass(s.pass.value.framebuffers[s.pass.value.current])];
      assert log[1..] == [] && Payload(log) == [];
    }
  }

  lemma {:induction false} KeptClosed(s: List)
    requires s.Good() && (s.dirty || Payload(s.commands) == [])
    ensures Kept(s.Closed()) == Kept(s)
    ensures s.dirty ==> Payload(s.Closed().commands) == Payload(s.commands)
  {
    if s.recording && s.dirty {
      PayloadConcat(s.commands, if s.inPass then [EndRenderPass] else []);
      assert Payload([EndRenderPass]) == [] && Payload(s.commands) + [] == Payload(s.commands);
    }
  }

  lemma {:induction false} KeptSubmitted(s: List)
    requires s.Good() && (s.dirty || Payload(s.commands) == [])
    ensures Kept(s.Submitted()) == Kept(s)
  {
    KeptClosed(s);
    var c := s.Closed();
    if c.dirty {
      var sent := c.sent + [c.commands];
      assert sent[..|sent| - 1] == c.sent;
      PayloadConcat(Concat(c.sent), c.commands);
    }
  }

  /** Clean lists hold no client commands; this much survives even discarding steps. */
  lemma {:induction false} CleanStep(s: List, e: Event)
    requires s.Good() && Legal(s, e) && (s.dirty || Payload(s.commands) == [])
    ensures Step(s, e).dirty || Payload(Step(s, e).commands) == []
  {
    match e
    case Begin => KeptOpened(s, true); CleanOpened(s, true);
    case Perform(op) =>
      var usePass := op.IsDraw() || op.Push?;
      CleanOpened(s, usePass);
      assert s.Opened(usePass).commands + [] == s.Opened(usePass).commands;
    case _ =>
  }

  lemma {:induction false} CleanOpened(s: List, usePass: bool)
    requires s.Good() && (s.dirty || Payload(s.commands) == [])
    ensures s.Opened(usePass).dirty || Payload(s.Opened(usePass).commands) == []
    ensures !s.recording ==> Payload(s.Opened(usePass).commands) == []
  {
    if !s.recording && usePass && s.pass.Some? && s.pass.value.initialized {
      var log := [BeginRenderPass(s.pass.value.framebuffers[s.pass.value.current])];
      assert log[1..] == [] && Payload(log) == [];
    }
  }

  /** One event keeps everything unless it discards, and then it drops exactly the
      list that was ended. */
  lemma {:induction false} KeptStep(s: List, e: Event)
    requires s.Good() && Legal(s, e) && (s.dirty || Payload(s.commands) == [])
    ensures Kept(Step(s, e)) ==
      (if Discards(s, e) then Payload(Concat(s.sent)) else Kept(s)) + Asked([e])
    ensures s.Honest() && !Discards(s, e) ==> Step(s, e).Honest()
  {
    AskedOne(e);
    match e
    case Begin => KeptBegin(s);
    case Perform(op) => KeptPerform(s, op); HonestPerformed(s, op);
    case End => KeptEnd(s);
    case Submit => KeptSubmit(s);
    case _ => KeptElse(s, e);
  }

  lemma {:induction false} AskedOne(e: Event)
    ensures Asked([e]) == if e.Perform? then e.op.Commands() else []
  {
  }

  lemma {:induction false} KeptBegin(s: List)
    requires s.Good() && (s.dirty || Payload(s.commands) == [])
    ensures Kept(Step(s, Begin)) == (if Discards(s, Begin) then Payload(Concat(s.sent)) else Kept(s)) + []
    ensures s.Honest() && !Discards(s, Begin) ==> Step(s, Begin).Honest()
  {
    KeptOpened(s, true);
    CleanOpened(s, true);
    GoodOpened(s, true);
    if !s.recording && !s.dirty {
      assert Payload(s.commands) == [] && Kept(s) == Payload(Concat(s.sent)) + [];
    }
  }

  lemma {:induction false} KeptPerform(s: List, op: Operation)
    requires s.Good() && (s.dirty || Payload(s.commands) == [])
    ensures Kept(s.Performed(op)) ==
      (if Discards(s, Perform(op)) then Payload(Concat(s.sent)) else Kept(s)) + op.Commands()
  {
    KeptPerformed(s, op);
    if !s.recording && !s.dirty {
      assert Payload(s.commands) == [] && Kept(s) == Payload(Concat(s.sent)) + [];
    }
  }

  lemma {:induction false} KeptEnd(s: List)
    requires s.Good() && (s.dirty || Payload(s.commands) == [])
    ensures Kept(s.Closed()) == Kept(s) + []
    ensures s.Honest() ==> s.Closed().Honest()
  {
    KeptClosed(s);
    GoodClosed(s);
  }

  lemma {:induction false} KeptSubmit(s: List)
    requires s.Good() && (s.dirty || Payload(s.commands) == [])
    ensures Kept(s.Submitted()) == Kept(s) + []
    ensures s.Honest() ==> s.Submitted().Honest()
  {
    KeptSubmitted(s);
    KeptClosed(s);
    GoodClosed(s);
    GoodStep(s, Submit);
  }

  /** Mode changes and changes of the render pass. */
  lemma {:induction false} KeptElse(s: List, e: Event)
    requires s.Good() && Legal(s, e) && (e.SetMode? || e.PassAdvanced? || e.PassRebuilt?)
    ensures Kept(Step(s, e)) == Kept(s) + []
    ensures s.Honest() ==> Step(s, e).Honest()
  {
    GoodStep(s, e);
  }

  lemma {:induction false} HonestPerformed(s: List, op: Operation)
    requires s.Good() && (s.dirty || Payload(s.commands) == [])
    ensures s.Honest() && !Discards(s, Perform(op)) ==> s.Performed(op).Honest()
  {
    GoodPerformed(s, op);
    var usePass := op.IsDraw() || op.Push?;
    CleanOpened(s, usePass);
    CommandsArePlain(op);
    PayloadConcat(s.Opened(usePass).commands, op.Commands());
    PayloadPlain(op.Commands());
  }

  /** Exactly-once delivery: over any run, the commands sent and still to be sent are the
      ones kept before plus the ones asked for, in order, if and only if no event of
      the run restarts recording over an ended list. */
  lemma {:induction false} ExactlyOnce(s: List, events: seq<Event>)
    requires s.Honest() && LegalRun(s, events)
    ensures Kept(Run(s, events)) == Kept(s) + Asked(events) <==> DiscardFree(s, events)
    ensures DiscardFree(s, events) ==> Run(s, events).Honest()
    decreases |events|
  {
    if events == [] {
      assert Kept(s) + [] == Kept(s);
    } else {
      var e, rest := events[0], events[1..];
      var t := Step(s, e);
      KeptStep(s, e);
      GoodStep(s, e);
      CleanStep(s, e);
      AskedSplit(events, Kept(s));
      if Discards(s, e) {
        NeverMore(t, rest);
        SubsequenceLength(Kept(Run(t, rest)), Kept(t) + Asked(rest));
      } else {
        ExactlyOnce(t, rest);
      }
    }
  }

  lemma {:induction false} AskedSplit(events: seq<Event>, before: seq<Command>)
    requires events != []
    ensures before + Asked(events) == (before + Asked([events[0]])) + Asked(events[1..])
    ensures |Asked(events)| == |Asked([events[0]])| + |Asked(events[1..])|
  {
    var first := if events[0].Perform? then events[0].op.Commands() else [];
    assert [events[0]][1..] == [];
    assert Asked([events[0]]) == first + [] == first;
    Associative(before, first, Asked(events[1..]));
  }

  lemma {:induction false} Associative(a: seq<Command>, b: seq<Command>, c: seq<Command>)
    ensures a + (b + c) == (a + b) + c
  {
  }

  /** In any run at all, discarding or not, what was sent and is still to be sent is a
      subsequence of what was kept before and asked for since: nothing is sent twice,
      nothing is sent out of order, and nothing is made up. */
  lemma {:induction false} NeverMore(s: List, events: seq<Event>)
    requires s.Good() && (s.dirty || Payload(s.commands) == []) && LegalRun(s, events)
    ensures Subsequence(Kept(Run(s, events)), Kept(s) + Asked(events))
    decreases |events|
  {
    if events == [] {
      assert Kept(s) + [] == Kept(s);
      SubsequenceSelf(Kept(s));
    } else {
      var e, rest := events[0], events[1..];
      var t := Step(s, e);
      KeptStep(s, e);
      GoodStep(s, e);
      CleanStep(s, e);
      NeverMore(t, rest);
      var kept := if Discards(s, e) then Payload(Concat(s.sent)) else Kept(s);
      SubsequencePrefix(Payload(Concat(s.sent)), Payload(s.commands));
      SubsequenceSelf(Kept(s));
      SubsequenceAppend(kept, Kept(s), Asked([e]));
      SubsequenceAppend(Kept(t), Kept(s) + Asked([e]), Asked(rest));
      SubsequenceTransitive(Kept(Run(t, rest)), Kept(t) + Asked(rest), (Kept(s) + Asked([e])) + Asked(rest));
      AskedSplit(events, Kept(s));
    }
  }

  /** Ending a list and beginning again without submitting it loses its commands, and
      an empty list is sent in their place. */
  lemma {:induction false} EndedListLost(s: List, op: Operation)
    requires s == List(false, false, [], false, false, [], None)
    requires op.Commands() != []
    ensures LegalRun(s, [Perform(op), End, Begin, Submit])
    ensures Run(s, [Perform(op), End, Begin, Submit]).sent == [[]]
  {
    var s1 := Step(s, Perform(op));
    var s2 := Step(s1, End);
    var s3 := Step(s2, Begin);
    var s4 := Step(s3, Submit);
    RunCons(s3, Submit, []);
    RunCons(s2, Begin, [Submit]);
    assert [Begin] + [Submit] == [Begin, Submit];
    RunCons(s1, End, [Begin, Submit]);
    assert [End] + [Begin, Submit] == [End, Begin, Submit];
    RunCons(s, Perform(op), [End, Begin, Submit]);
    assert [Perform(op)] + [End, Begin, Submit] == [Perform(op), End, Begin, Submit];
    assert [Submit] + [] == [Submit];
    assert s3.commands == [] && s3.dirty && s4.sent == [[]];
  }

  lemma {:induction false} RunCons(s: List, e: Event, rest: seq<Event>)
    requires s.PassOk() && Legal(s, e) && LegalRun(Step(s, e), rest)
    ensures LegalRun(s, [e] + rest) && Run(s, [e] + rest) == Run(Step(s, e), rest)
  {
    assert ([e] + rest)[1..] == rest;
  }

  /** A submission sends one list when the chain is dirty and none when it is clean; the
      has-record guard never decides. */
  lemma {:induction false} SubmitExactlyWhenDirty(s: List)
    requires s.Good()
    ensures s.Submitted().sent == if s.dirty then s.sent + [s.Closed().commands] else s.sent
    ensures s.Submitted().Submitted() == s.Submitted()
  {
    GoodClosed(s);
    CleanSubmit(s.Submitted());
  }

  lemma {:induction false} CleanSubmit(s: List)
    requires !s.recording && !s.dirty
    ensures s.Submitted() == s
  {
  }

  // ---------------------------------------------------------------- modes

  function WithoutModes(events: seq<Event>): seq<Event> {
    if events == [] then []
    else (if events[0].SetMode? then [] else [events[0]]) + WithoutModes(events[1..])
  }

  /** Mode changes cannot be observed. */
  lemma {:induction false} ModesInvisible(s: List, events: seq<Event>)
    requires s.PassOk() && LegalRun(s, events)
    ensures LegalRun(s, WithoutModes(events))
    ensures Run(s, WithoutModes(events)) == Run(s, events)
    decreases |events|
  {
    if events != [] {
      var e, rest := events[0], events[1..];
      ModesInvisible(Step(s, e), rest);
      var w := WithoutModes(rest);
      if e.SetMode? {
        assert WithoutModes(events) == w;
      } else {
        assert WithoutModes(events) == [e] + w && ([e] + w)[0] == e && ([e] + w)[1..] == w;
      }
    }
  }

  // ---------------------------------------------------------------- framebuffers

  /** Nobody else moves the framebuffer ring during the run. */
  predicate OwnPass(events: seq<Event>) {
    forall i | 0 <= i < |events| :: !events[i].PassAdvanced? && !events[i].PassRebuilt?
  }

  /** Log `n` of a run that started at framebuffer `c` uses framebuffer `(c + n) mod 3`. */
  ghost predicate DrawsInto(log: seq<Command>, framebuffers: seq<nat>, index: nat)
    requires |framebuffers| == NUM_BUFFERS
  {
    log != [] && log[0].BeginRenderPass? ==> log[0].framebuffer == framebuffers[index % 3]
  }

  ghost predicate Rotating(s: List, base: List)
    requires base.pass.Some? && base.pass.value.Valid() && base.pass.value.initialized
    requires |base.sent| <= |s.sent|
  {
    var p := base.pass.value;
    && s.pass.Some?
    && s.pass.value == p.(current := (p.current + |s.sent| - |base.sent|) % 3)
    && DrawsInto(s.commands, p.framebuffers, p.current + |s.sent| - |base.sent|)
    && (forall n | |base.sent| <= n < |s.sent| ::
          DrawsInto(s.sent[n], p.framebuffers, p.current + n - |base.sent|))
  }

  lemma {:induction false} RotatingSubmitted(s: List, base: List)
    requires base.pass.Some? && base.pass.value.Valid() && base.pass.value.initialized
    requires |base.sent| <= |s.sent| && Rotating(s, base)
    ensures Rotating(s.Submitted(), base)
  {
    var p, c, r := base.pass.value, s.Closed(), s.Submitted();
    if c.hasRecord && c.dirty {
      var i := |s.sent| - |base.sent|;
      assert DrawsInto(c.commands, p.framebuffers, p.current + i);
      NextFramebuffer(p.current + i);
    }
  }

  lemma {:induction false} NextFramebuffer(i: nat)
    ensures (i + 1) % 3 == if i % 3 + 1 >= NUM_BUFFERS then 0 else i % 3 + 1
  {
  }

  lemma {:induction false} RotatingPerformed(s: List, base: List, op: Operation)
    requires base.pass.Some? && base.pass.value.Valid() && base.pass.value.initialized
    requires |base.sent| <= |s.sent| && Rotating(s, base)
    ensures s.PassOk() && Rotating(s.Performed(op), base)
  {
    var o := s.Opened(op.IsDraw() || op.Push?);
    CommandsArePlain(op);
    var i := base.pass.value.current + |s.sent| - |base.sent|;
    assert DrawsInto(o.commands, base.pass.value.framebuffers, i);
    DrawsIntoAppended(o.commands, op.Commands(), base.pass.value.framebuffers, i);
  }

  lemma {:induction false} DrawsIntoAppended(log: seq<Command>, more: seq<Command>, framebuffers: seq<nat>, index: nat)
    requires |framebuffers| == NUM_BUFFERS && DrawsInto(log, framebuffers, index)
    requires more == [] || !more[0].BeginRenderPass?
    ensures DrawsInto(log + more, framebuffers, index)
  {
    if log != [] {
      assert (log + more)[0] == log[0];
    }
  }

  lemma {:induction false} RotatingStep(s: List, base: List, e: Event)
    requires base.pass.Some? && base.pass.value.Valid() && base.pass.value.initialized
    requires |base.sent| <= |s.sent| && Rotating(s, base) && Legal(s, e)
    requires !e.PassAdvanced? && !e.PassRebuilt?
    ensures |base.sent| <= |Step(s, e).sent| && Rotating(Step(s, e), base)
  {
    match e
    case Perform(op) => RotatingPerformed(s, base, op);
    case Submit => RotatingSubmitted(s, base);
    case _ =>
  }

  lemma {:induction false} RotatingRun(s: List, base: List, events: seq<Event>)
    requires base.pass.Some? && base.pass.value.Valid() && base.pass.value.initialized
    requires |base.sent| <= |s.sent| && Rotating(s, base)
    requires LegalRun(s, events) && OwnPass(events)
    ensures |base.sent| <= |Run(s, events).sent| && Rotating(Run(s, events), base)
    decreases |events|
  {
    if events != [] {
      RotatingStep(s, base, events[0]);
      RotatingRun(Step(s, events[0]), base, events[1..]);
    }
  }

  /** The framebuffers are used in turn: over any run from an idle state in which only this
      chain advances the render pass, every list sent that opens the pass draws into
      the framebuffer of its number, cyclically. */
  lemma {:induction false} FramebuffersInTurn(base: List, events: seq<Event>)
    requires base.PassOk() && base.commands == []
    requires base.pass.Some? && base.pass.value.initialized
    requires LegalRun(base, events) && OwnPass(events)
    ensures |base.sent| <= |Run(base, events).sent| && Rotating(Run(base, events), base)
  {
    RotatingRun(base, base, events);
  }
}
