/** What command lists mean: executing a list tracks what is bound and collects what is drawn,
    copied, moved, waited for and pushed.  The effects of what a chain sends are those its
    operations ask for. */
module Effects {
  import opened Wrappers
  import opened Layouts
  import opened Driver
  import opened Framebuffers
  import opened CommandList

  /** What the commands executed so far have bound. */
  datatype Bound = Bound(
    target: Option<nat>, pipeline: Option<nat>, descriptor: Option<nat>,
    vertices: Option<nat>, vertexOffset: nat, indices: Option<nat>)

  const BLANK := Bound(None, None, None, None, 0, None)

  datatype Effect =
    | Drawn(target: Option<nat>, pipeline: Option<nat>, descriptor: Option<nat>,
            vertices: Option<nat>, vertexOffset: nat, count: nat, instances: nat)
    | DrawnIndexed(target: Option<nat>, pipeline: Option<nat>, descriptor: Option<nat>,
                   vertices: Option<nat>, vertexOffset: nat, indices: Option<nat>, count: nat, instances: nat)
    | Copied(src: nat, dst: nat, bytes: nat, srcOffset: nat, dstOffset: nat)
    | ImageCopied(src: nat, srcLayout: VkLayout, dst: nat, dstLayout: VkLayout)
    | ImageRead(image: nat, dst: nat)
    | ImageFilled(src: nat, image: nat)
    | LayoutChanged(image: nat, from: VkLayout, to: VkLayout)
    | StagesOrdered(srcStage: nat, dstStage: nat)
    | BufferOrdered(buffer: nat)
    | Pushed(pipeline: Option<nat>, offset: nat, size: nat, value: nat)

  // ---------------------------------------------------------------- execution

  function Binds(b: Bound, c: Command): Bound {
    match c
    case BeginRenderPass(framebuffer) => b.(target := Some(framebuffer))
    case EndRenderPass => b.(target := None)
    case BindPipeline(pipeline) => b.(pipeline := Some(pipeline))
    case BindDescriptorSet(_, descriptor) => b.(descriptor := Some(descriptor))
    case BindVertexBuffer(buffer, offset) => b.(vertices := Some(buffer), vertexOffset := offset)
    case BindIndexBuffer(buffer) => b.(indices := Some(buffer))
    case _ => b
  }

  function Does(b: Bound, c: Command): seq<Effect> {
    match c
    case Draw(count, instances) =>
      [Drawn(b.target, b.pipeline, b.descriptor, b.vertices, b.vertexOffset, count, instances)]
    case DrawIndexed(count, instances) =>
      [DrawnIndexed(b.target, b.pipeline, b.descriptor, b.vertices, b.vertexOffset, b.indices, count, instances)]
    case CopyBuffer(src, dst, size, from, to) => [Copied(src, dst, size, from, to)]
    case CopyImage(src, srcLayout, dst, dstLayout) => [ImageCopied(src, srcLayout, dst, dstLayout)]
    case CopyImageToBuffer(image, dst) => [ImageRead(image, dst)]
    case CopyBufferToImage(src, image) => [ImageFilled(src, image)]
    case ImageBarrier(image, from, to) => [LayoutChanged(image, from, to)]
    case PipelineBarrier(src, dst) => [StagesOrdered(src, dst)]
    case BufferBarrier(buffer) => [BufferOrdered(buffer)]
    case PushConstants(_, offset, size, value) => [Pushed(b.pipeline, offset, size, value)]
    case _ => []
  }

  /** What is bound after a log. */
  function BoundAfter(b: Bound, log: seq<Command>): Bound {
    if log == [] then b else Binds(BoundAfter(b, log[..|log| - 1]), log[|log| - 1])
  }

  /** What a log does, in order. */
  function Results(b: Bound, log: seq<Command>): seq<Effect> {
    if log == [] then []
    else
      var front := log[..|log| - 1];
      Results(b, front) + Does(BoundAfter(b, front), log[|log| - 1])
  }

  lemma {:induction false} AssociativeEffects(a: seq<Effect>, b: seq<Effect>, c: seq<Effect>)
    ensures (a + b) + c == a + (b + c)
  {
  }

  lemma {:induction false} ResultsConcat(b: Bound, x: seq<Command>, y: seq<Command>)
    ensures BoundAfter(b, x + y) == BoundAfter(BoundAfter(b, x), y)
    ensures Results(b, x + y) == Results(b, x) + Results(BoundAfter(b, x), y)
  {
    if y == [] {
      assert x + y == x;
    } else {
      var front, last := y[..|y| - 1], y[|y| - 1];
      ResultsConcat(b, x, front);
      assert (x + y)[..|x + y| - 1] == x + front && (x + y)[|x + y| - 1] == last;
      AssociativeEffects(Results(b, x), Results(BoundAfter(b, x), front), Does(BoundAfter(b, x + front), last));
    }
  }

  /** Render-pass brackets alone do nothing. */
  lemma {:induction false} BracketsDoNothing(b: Bound, log: seq<Command>)
    requires Payload(log) == []
    ensures Results(b, log) == []
  {
    if log != [] {
      var front, last := log[..|log| - 1], log[|log| - 1];
      assert log == front + [last];
      PayloadConcat(front, [last]);
      assert [last][1..] == [] && Payload([last]) == if IsPassCommand(last) then [] else [last];
      BracketsDoNothing(b, front);
    }
  }

  // ---------------------------------------------------------------- what operations ask for

  /** The effects an operation asks for, from its own arguments, when the list it is recorded
      into draws into `target` and `descriptor` is bound. */
  function Wanted(op: Operation, target: Option<nat>, descriptor: Option<nat>): seq<Effect> {
    match op
    case CopyBuffers(src, dst, amount, elementSize, from, to) =>
      [Copied(src, dst, amount * elementSize % 0x1_0000_0000, from, to)]
    case CopyImages(src, srcLayout, dst, dstLayout) => [ImageCopied(src, srcLayout, dst, dstLayout)]
    case CopyFromImage(image, dst) => [ImageRead(image, dst)]
    case FillImage(src, image) => [ImageFilled(src, image)]
    case Transition(image, from, to) => if to == VkUndefined then [] else [LayoutChanged(image, from, to)]
    case Barrier(src, dst) => [StagesOrdered(src, dst)]
    case MemoryBarrier(buffer) => [BufferOrdered(buffer)]
    case DrawVertices(p, _, vertices, count, offset, instances) =>
      [Drawn(target, Some(p), Describing(op, descriptor), Some(vertices), offset, count, instances)]
    case DrawIndices(p, _, indices, vertices, count, instances) =>
      [DrawnIndexed(target, Some(p), Describing(op, descriptor), Some(vertices), 0, Some(indices), count, instances)]
    case Push(p, value, byteSize, offset) =>
      // everything behind the offset is pushed, whatever the size
      if byteSize >= 256 then [] else [Pushed(Some(p), offset, (256 - offset) % 0x1_0000_0000, value)]
  }

  /** The descriptor set in use after an operation: a draw without one keeps the last. */
  function Describing(op: Operation, descriptor: Option<nat>): Option<nat> {
    match op
    case DrawVertices(_, d, _, _, _, _) => if d == None then descriptor else d
    case DrawIndices(_, d, _, _, _, _) => if d == None then descriptor else d
    case _ => descriptor
  }

  lemma {:induction false} OneCommand(b: Bound, c: Command)
    ensures BoundAfter(b, [c]) == Binds(b, c) && Results(b, [c]) == Does(b, c)
  {
    assert [c][..0] == [];
    assert BoundAfter(b, []) == b && Results(b, []) == [];
  }

  /** One command after the other. */
  lemma {:induction false} TwoCommands(b: Bound, c: Command, rest: seq<Command>)
    ensures BoundAfter(b, [c] + rest) == BoundAfter(Binds(b, c), rest)
    ensures Results(b, [c] + rest) == Does(b, c) + Results(Binds(b, c), rest)
  {
    ResultsConcat(b, [c], rest);
    OneCommand(b, c);
  }

  /** Binding the pipeline and the descriptor set of a draw. */
  lemma {:induction false} BindExecuted(b: Bound, p: nat, d: Option<nat>)
    ensures BoundAfter(b, Operation.Bind(p, d)) ==
      b.(pipeline := Some(p), descriptor := if d == None then b.descriptor else d)
    ensures Results(b, Operation.Bind(p, d)) == []
  {
    var rest := if d.Some? then [BindDescriptorSet(p, d.value)] else [];
    TwoCommands(b, BindPipeline(p), rest);
    if d.Some? {
      OneCommand(Binds(b, BindPipeline(p)), BindDescriptorSet(p, d.value));
    }
  }

  lemma {:induction false} DrawExecuted(b: Bound, vertices: nat, offset: nat, count: nat, instances: nat)
    ensures var log := [BindVertexBuffer(vertices, offset), Draw(count, instances)];
      && BoundAfter(b, log) == b.(vertices := Some(vertices), vertexOffset := offset)
      && Results(b, log) == [Drawn(b.target, b.pipeline, b.descriptor, Some(vertices), offset, count, instances)]
  {
    assert [BindVertexBuffer(vertices, offset), Draw(count, instances)] ==
           [BindVertexBuffer(vertices, offset)] + [Draw(count, instances)];
    TwoCommands(b, BindVertexBuffer(vertices, offset), [Draw(count, instances)]);
    OneCommand(Binds(b, BindVertexBuffer(vertices, offset)), Draw(count, instances));
  }

  lemma {:induction false} IndexedDrawExecuted(b: Bound, indices: nat, vertices: nat, count: nat, instances: nat)
    ensures var log := [BindVertexBuffer(vertices, 0), BindIndexBuffer(indices), DrawIndexed(count, instances)];
      && BoundAfter(b, log) == b.(vertices := Some(vertices), vertexOffset := 0, indices := Some(indices))
      && Results(b, log) ==
           [DrawnIndexed(b.target, b.pipeline, b.descriptor, Some(vertices), 0, Some(indices), count, instances)]
  {
    var c1, c2, c3 := BindVertexBuffer(vertices, 0), BindIndexBuffer(indices), DrawIndexed(count, instances);
    assert [c1, c2, c3] == [c1] + ([c2] + [c3]);
    TwoCommands(b, c1, [c2] + [c3]);
    TwoCommands(Binds(b, c1), c2, [c3]);
    OneCommand(Binds(Binds(b, c1), c2), c3);
  }

  lemma {:induction false} VerticesExecuted(op: Operation, b: Bound)
    requires op.DrawVertices?
    ensures Results(b, op.Commands()) == Wanted(op, b.target, b.descriptor)
    ensures BoundAfter(b, op.Commands()).target == b.target
    ensures BoundAfter(b, op.Commands()).descriptor == Describing(op, b.descriptor)
  {
    var bind := Operation.Bind(op.pipeline, op.descriptor);
    var draw := [BindVertexBuffer(op.vertices, op.offset), Draw(op.count, op.instances)];
    assert op.Commands() == bind + draw;
    BindExecuted(b, op.pipeline, op.descriptor);
    ResultsConcat(b, bind, draw);
    DrawExecuted(BoundAfter(b, bind), op.vertices, op.offset, op.count, op.instances);
  }

  lemma {:induction false} IndicesExecuted(op: Operation, b: Bound)
    requires op.DrawIndices?
    ensures Results(b, op.Commands()) == Wanted(op, b.target, b.descriptor)
    ensures BoundAfter(b, op.Commands()).target == b.target
    ensures BoundAfter(b, op.Commands()).descriptor == Describing(op, b.descriptor)
  {
    var bind := Operation.Bind(op.pipeline, op.descriptor);
    var draw := [BindVertexBuffer(op.vertices, 0), BindIndexBuffer(op.indices), DrawIndexed(op.count, op.instances)];
    assert op.Commands() == bind + draw;
    BindExecuted(b, op.pipeline, op.descriptor);
    ResultsConcat(b, bind, draw);
    IndexedDrawExecuted(BoundAfter(b, bind), op.indices, op.vertices, op.count, op.instances);
  }

  lemma {:induction false} PushExecuted(op: Operation, b: Bound)
    requires op.Push?
    ensures Results(b, op.Commands()) == Wanted(op, b.target, b.descriptor)
    ensures BoundAfter(b, op.Commands()).target == b.target
    ensures BoundAfter(b, op.Commands()).descriptor == b.descriptor
  {
    var push := PushConstants(op.pipeline, op.offset, (256 - op.offset) % 0x1_0000_0000, op.value);
    TwoCommands(b, BindPipeline(op.pipeline), if op.byteSize < 256 then [push] else []);
    OneCommand(Binds(b, BindPipeline(op.pipeline)), push);
  }

  /** Executing what an operation records does exactly what it asks for, and neither leaves the
      render target nor disturbs the descriptor set. */
  lemma {:induction false} OperationExecuted(op: Operation, b: Bound)
    ensures Results(b, op.Commands()) == Wanted(op, b.target, b.descriptor)
    ensures BoundAfter(b, op.Commands()).target == b.target
    ensures BoundAfter(b, op.Commands()).descriptor == Describing(op, b.descriptor)
  {
    match op
    case DrawVertices(_, _, _, _, _, _) => VerticesExecuted(op, b);
    case DrawIndices(_, _, _, _, _, _) => IndicesExecuted(op, b);
    case Push(_, _, _, _) => PushExecuted(op, b);
    case _ =>
      if op.Commands() != [] {
        OneCommand(b, op.Commands()[0]);
        assert op.Commands() == [op.Commands()[0]];
      }
  }

  predicate OpensPass(op: Operation) {
    op.DrawVertices? || op.DrawIndices? || op.Push?
  }

  /** The framebuffer of the render pass an operation opens, if it opens one. */
  function OpenedTarget(op: Operation, pass: Option<PassView>): Option<nat>
    requires pass.Some? ==> pass.value.Valid()
  {
    if OpensPass(op) && pass.Some? && pass.value.initialized
    then Some(pass.value.framebuffers[pass.value.current]) else None
  }

  /** Executing `t` does what executing `s` does and in addition what the operation asks for: in
      the pass the list is in, or, when recording is off, alone in the pass it opens. */
  predicate Adds(s: List, op: Operation, t: List)
    requires s.PassOk()
  {
    var b := BoundAfter(BLANK, s.commands);
    Results(BLANK, t.commands) ==
      if s.recording then Results(BLANK, s.commands) + Wanted(op, b.target, b.descriptor)
      else Wanted(op, OpenedTarget(op, s.pass), None)
  }

  lemma {:induction false} PerformedEffects(s: List, op: Operation)
    requires s.PassOk()
    ensures Adds(s, op, s.Performed(op))
  {
    var o := s.Opened(op.IsDraw() || op.Push?);
    if !s.recording {
      if o.commands != [] {
        OneCommand(BLANK, o.commands[0]);
        assert o.commands == [o.commands[0]];
      }
      assert Results(BLANK, o.commands) == [];
      assert BoundAfter(BLANK, o.commands) == BLANK.(target := OpenedTarget(op, s.pass));
    }
    ResultsConcat(BLANK, o.commands, op.Commands());
    OperationExecuted(op, BoundAfter(BLANK, o.commands));
  }

  /** What an open list does so far. */
  function Doing(s: List): seq<Effect> {
    if s.recording then Results(BLANK, s.commands) else []
  }

  predicate Gains(s: List, t: List, more: seq<Effect>) {
    t.recording && Doing(t) == Doing(s) + more
  }

  lemma {:induction false} GainsThrice(s: List, s1: List, s2: List, s3: List, a: seq<Effect>, b: seq<Effect>, c: seq<Effect>)
    requires Gains(s, s1, a) && Gains(s1, s2, b) && Gains(s2, s3, c)
    ensures Gains(s, s3, a + b + c)
  {
    AssociativeEffects(Doing(s), a, b);
    AssociativeEffects(Doing(s), a + b, c);
  }

  /** Transitions and fills do the same wherever they are recorded. */
  lemma {:induction false} OutsidePass(s: List, op: Operation, t: List, more: seq<Effect>)
    requires s.PassOk() && (op.Transition? || op.FillImage?) && t == s.Performed(op)
    requires more == Wanted(op, None, None)
    ensures t.PassOk() && Gains(s, t, more)
  {
    PerformedEffects(s, op);
  }

  /** Filling an image moves it to a transfer target, copies the buffer into it, and moves it back
      unless its layout was undefined. */
  lemma {:induction false} FilledEffects(s: List, src: nat, image: nat, layout: VkLayout)
    requires s.PassOk()
    ensures Gains(s, s.Filled(src, image, layout),
      [LayoutChanged(image, layout, VkTransferDst)] + [ImageFilled(src, image)] +
      (if layout == VkUndefined then [] else [LayoutChanged(image, VkTransferDst, layout)]))
  {
    var there, back := Transition(image, layout, VkTransferDst), Transition(image, VkTransferDst, layout);
    var a, b := [LayoutChanged(image, layout, VkTransferDst)], [ImageFilled(src, image)];
    var c := if layout == VkUndefined then [] else [LayoutChanged(image, VkTransferDst, layout)];
    var s1 := s.Performed(there);
    OutsidePass(s, there, s1, a);
    var s2 := s1.Performed(FillImage(src, image));
    OutsidePass(s1, FillImage(src, image), s2, b);
    var s3 := s2.Performed(back);
    OutsidePass(s2, back, s3, c);
    GainsThrice(s, s1, s2, s3, a, b, c);
  }

  // ---------------------------------------------------------------- whole runs

  function AllResults(logs: seq<seq<Command>>): seq<Effect> {
    if logs == [] then [] else AllResults(logs[..|logs| - 1]) + Results(BLANK, logs[|logs| - 1])
  }

  /** Everything that was sent or is still to be sent does, each list executed on its own. */
  function Effected(s: List): seq<Effect> {
    AllResults(s.sent) + Results(BLANK, s.commands)
  }

  /** What a client knows of the list it is recording: its framebuffer and descriptor set. */
  datatype Client = Client(recording: bool, target: Option<nat>, descriptor: Option<nat>)

  /** An explicit begin, a draw or a push opens a list in the render pass. */
  predicate AsksForPass(e: Event) {
    e.Begin? || (e.Perform? && OpensPass(e.op))
  }

  /** The client's list after an event that records. */
  function OpenedFor(c: Client, e: Event, pass: Option<PassView>): Client
    requires pass.Some? ==> pass.value.Valid()
  {
    if c.recording then c
    else if AsksForPass(e) && pass.Some? && pass.value.initialized then
      Client(true, Some(pass.value.framebuffers[pass.value.current]), None)
    else Client(true, None, None)
  }

  function NextClient(c: Client, e: Event, pass: Option<PassView>): Client
    requires pass.Some? ==> pass.value.Valid()
  {
    match e
    case Begin => OpenedFor(c, e, pass)
    case Perform(op) =>
      var o := OpenedFor(c, e, pass);
      o.(descriptor := Describing(op, o.descriptor))
    case End => Client(false, None, None)
    case Submit => Client(false, None, None)
    case _ => c
  }

  function WantedBy(c: Client, e: Event, pass: Option<PassView>): seq<Effect>
    requires pass.Some? ==> pass.value.Valid()
  {
    if e.Perform? then
      var o := OpenedFor(c, e, pass);
      Wanted(e.op, o.target, o.descriptor)
    else []
  }

  /** Everything a run asks for. */
  function WantedEffects(c: Client, s: List, events: seq<Event>): seq<Effect>
    requires s.PassOk() && LegalRun(s, events)
    decreases |events|
  {
    if events == [] then []
    else WantedBy(c, events[0], s.pass)
         + WantedEffects(NextClient(c, events[0], s.pass), Step(s, events[0]), events[1..])
  }

  /** The client is right about its list. */
  predicate Knows(c: Client, s: List) {
    && c.recording == s.recording
    && (s.recording ==>
          c.target == BoundAfter(BLANK, s.commands).target && c.descriptor == BoundAfter(BLANK, s.commands).descriptor)
  }

  predicate Clean(s: List) {
    s.dirty || Payload(s.commands) == []
  }

  lemma {:induction false} OpenedKnown(c: Client, s: List, e: Event, usePass: bool)
    requires s.Good() && Clean(s) && Knows(c, s) && (usePass <==> AsksForPass(e))
    requires !s.recording ==> !s.dirty
    ensures Knows(OpenedFor(c, e, s.pass), s.Opened(usePass))
    ensures Effected(s.Opened(usePass)) == Effected(s)
  {
    if !s.recording {
      assert s.commands == [];
      var o := s.Opened(usePass);
      if o.commands != [] {
        OneCommand(BLANK, o.commands[0]);
        assert o.commands == [o.commands[0]];
      }
    }
  }

  lemma {:induction false} ExtendedKnown(c: Client, o: List, op: Operation)
    requires o.recording && Knows(c, o)
    ensures Knows(c.(descriptor := Describing(op, c.descriptor)), o.Extended(op))
    ensures Effected(o.Extended(op)) == Effected(o) + Wanted(op, c.target, c.descriptor)
  {
    ResultsConcat(BLANK, o.commands, op.Commands());
    OperationExecuted(op, BoundAfter(BLANK, o.commands));
    AssociativeEffects(AllResults(o.sent), Results(BLANK, o.commands), Wanted(op, c.target, c.descriptor));
  }

  lemma {:induction false} ClosedEffects(s: List)
    requires s.Good() && Clean(s)
    ensures Effected(s.Closed()) == Effected(s)
  {
    if s.recording {
      if s.dirty {
        var bracket := if s.inPass then [EndRenderPass] else [];
        ResultsConcat(BLANK, s.commands, bracket);
        if s.inPass {
          OneCommand(BoundAfter(BLANK, s.commands), EndRenderPass);
        }
        assert Results(BLANK, s.commands) + [] == Results(BLANK, s.commands);
      } else {
        BracketsDoNothing(BLANK, s.commands);
      }
    }
  }

  lemma {:induction false} SubmittedEffects(s: List)
    requires s.Good() && Clean(s)
    ensures Effected(s.Submitted()) == Effected(s)
  {
    ClosedEffects(s);
    var c := s.Closed();
    if c.hasRecord && c.dirty {
      assert (c.sent + [c.commands])[..|c.sent|] == c.sent;
      assert Results(BLANK, []) == [];
    }
  }

  /** One event does exactly what it asks for, unless it restarts recording over an ended list. */
  lemma {:induction false} EffectsStep(c: Client, s: List, e: Event)
    requires s.Good() && Clean(s) && Knows(c, s) && Legal(s, e) && !Discards(s, e)
    ensures Knows(NextClient(c, e, s.pass), Step(s, e))
    ensures Effected(Step(s, e)) == Effected(s) + WantedBy(c, e, s.pass)
  {
    assert Effected(s) + [] == Effected(s);
    match e
    case Begin => OpenedKnown(c, s, e, true);
    case Perform(op) =>
      var usePass := op.IsDraw() || op.Push?;
      OpenedKnown(c, s, e, usePass);
      GoodOpened(s, usePass);
      ExtendedKnown(OpenedFor(c, e, s.pass), s.Opened(usePass), op);
    case End => ClosedEffects(s);
    case Submit => SubmittedEffects(s);
    case _ =>
  }

  /** Over every run that never restarts recording over an ended list, executing what was sent and
      is still to be sent does exactly what the operations asked for, in order, each draw in
      the framebuffer that was current when its list was opened. */
  lemma {:induction false} EffectsDelivered(c: Client, s: List, events: seq<Event>)
    requires s.Good() && Clean(s) && Knows(c, s) && LegalRun(s, events) && DiscardFree(s, events)
    ensures Effected(Run(s, events)) == Effected(s) + WantedEffects(c, s, events)
    decreases |events|
  {
    if events == [] {
      assert Effected(s) + [] == Effected(s);
    } else {
      var e, rest := events[0], events[1..];
      EffectsStep(c, s, e);
      GoodStep(s, e);
      CleanStep(s, e);
      var c', t := NextClient(c, e, s.pass), Step(s, e);
      EffectsDelivered(c', t, rest);
      AssociativeEffects(Effected(s), WantedBy(c, e, s.pass), WantedEffects(c', t, rest));
    }
  }

  /** A single draw on a fresh chain draws. */
  lemma {:induction false} FirstDraw(p: nat, vertices: nat, count: nat)
    ensures var s := List(false, false, [], false, false, [], None);
      var op := DrawVertices(p, None, vertices, count, 0, 1);
      && AllResults(s.Performed(op).Submitted().sent) == [Drawn(None, Some(p), None, Some(vertices), 0, count, 1)]
  {
    var s := List(false, false, [], false, false, [], None);
    var op := DrawVertices(p, None, vertices, count, 0, 1);
    var t := s.Performed(op);
    OperationExecuted(op, BLANK);
    assert s.Opened(true).commands == [] && [] + op.Commands() == op.Commands() == t.commands;
    assert t.Submitted().sent == [t.commands] by {
      assert t.commands + [] == t.commands;
    }
    assert [t.commands][..0] == [];
  }
}
