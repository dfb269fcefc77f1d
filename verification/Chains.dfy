/** A primary command chain: a ring of four command buffers that are recorded one at a
    time (sequential mode) or all together (replicated mode), and submitted one by one. */
module Chains {
  import opened Wrappers
  import opened Layouts
  import opened Driver
  import opened Framebuffers
  import opened CommandBuffers
  import opened CommandList
  import opened Effects

  const COMMAND_BUFFER_COUNT: nat := 4

  /** The slot of submission `i` of a ring that started at `from`. */
  function SlotAfter(from: nat, i: nat): nat {
    (from + i) % COMMAND_BUFFER_COUNT
  }

  /** The slot a loop has reached that started at `from` and took at most one turn. */
  function Reached(from: nat, i: nat): nat {
    if from + i < COMMAND_BUFFER_COUNT then from + i else from + i - COMMAND_BUFFER_COUNT
  }

  function Sent(submissions: seq<Submission>): (r: seq<seq<Command>>)
    ensures |r| == |submissions|
    ensures forall n | 0 <= n < |r| :: r[n] == submissions[n].commands
  {
    seq(|submissions|, n requires 0 <= n < |submissions| => submissions[n].commands)
  }

  lemma {:induction false} NextSlot(from: nat, i: nat)
    ensures Next(SlotAfter(from, i), COMMAND_BUFFER_COUNT) == SlotAfter(from, i + 1)
  {
  }

  /** Of the last four submissions, only the fourth-last used the slot that is next. */
  lemma {:induction false} NotTheFourth(start: nat, n: nat, m: nat)
    requires m < n && m + COMMAND_BUFFER_COUNT >= n
    requires SlotAfter(start, m) != SlotAfter(start, n)
    ensures m + COMMAND_BUFFER_COUNT >= n + 1
  {
  }

  /** An image whose layout the chain keeps track of. */
  class Image {
    const id: nat
    var layout: VkLayout

    constructor (id: nat, layout: VkLayout)
      ensures this.id == id && this.layout == layout
    {
      this.id, this.layout := id, layout;
    }
  }

  class Chain {
    const queue: Queue
    const cmd: CommandBuffer
    var pass: FramebufferRing?
    var hasRecord: bool
    var numCmd: nat
    var current: nat
    var dirty: bool
    ghost var start: nat   // the ring index when the buffers were allocated

    /** Slot `k` is one of the slots that the current mode records. */
    predicate InWindow(k: nat)
      reads this
      requires current < COMMAND_BUFFER_COUNT && k < COMMAND_BUFFER_COUNT
    {
      Offset(current, k, COMMAND_BUFFER_COUNT) < numCmd
    }

    ghost predicate Shape()
      reads this, cmd, cmd.device, pass
    {
      && cmd.Valid() && cmd.Size() == COMMAND_BUFFER_COUNT
      && cmd.current == current < COMMAND_BUFFER_COUNT
      && (numCmd == 1 || numCmd == COMMAND_BUFFER_COUNT)
      && (pass != null ==> pass.View().Valid())
    }

    /** Exactly the slots of the window are being recorded, and they are replicas. */
    ghost predicate WindowRecording()
      reads this, cmd, cmd.device, pass
      requires Shape()
    {
      forall k | 0 <= k < COMMAND_BUFFER_COUNT ::
        && (cmd.At(k).slot.buffer.Recording? <==> cmd.recording && InWindow(k))
        && (cmd.recording && InWindow(k) ==>
              && cmd.At(k).slot.commands == cmd.At(current).slot.commands
              && cmd.At(k).started == cmd.At(current).started)
    }

    /** The n-th submission used the n-th slot of the ring, and a fence that is tied to a
        submission is tied to one of the last four. */
    ghost predicate RingOrder()
      reads this, cmd, cmd.device, pass
      requires Shape()
    {
      var subs := cmd.device.submissions;
      && current == SlotAfter(start, |subs|)
      && (forall n | 0 <= n < |subs| :: subs[n].slot == SlotAfter(start, n))
      && (forall k | 0 <= k < COMMAND_BUFFER_COUNT ::
            cmd.At(k).slot.fence.Attached? ==> cmd.At(k).slot.fence.submission + COMMAND_BUFFER_COUNT >= |subs|)
    }

    /** Unsent work sits in the current slot, whose fence is free. */
    ghost predicate DirtyReady()
      reads this, cmd, cmd.device, pass
      requires Shape()
    {
      dirty ==> !cmd.At(current).signaled && (cmd.recording || hasRecord)
    }

    ghost predicate Valid()
      reads this, cmd, cmd.device, pass
    {
      Shape() && WindowRecording() && RingOrder() && DirtyReady()
    }

    /** The command list this chain stands for.  Neither the ring position nor the
        replication mode can be seen in it. */
    ghost function View(): List
      reads this, cmd, cmd.device, pass
      requires Shape()
    {
      List(cmd.recording,
           cmd.recording && cmd.At(current).started,
           if cmd.recording || dirty then cmd.At(current).slot.commands else [],
           dirty,
           hasRecord,
           Sent(cmd.device.submissions),
           if pass == null then None else Some(pass.View()))
    }

    constructor (pass: FramebufferRing?)
      requires pass != null ==> pass.View().Valid()
      ensures Valid() && fresh(queue) && fresh(cmd) && fresh(cmd.device) && this.pass == pass
      ensures View() == List(false, false, [], false, false, [],
                             if pass == null then None else Some(pass.View()))
    {
      queue := new Queue();
      cmd := new CommandBuffer(COMMAND_BUFFER_COUNT);
      this.pass := pass;
      hasRecord, dirty := false, false;
      numCmd, current, start := 1, 0, 0;
    }

    /** Begins recording in every slot of the window, outside a render pass. */
    method BeginWindow()
      requires Shape() && WindowRecording() && !cmd.recording
      modifies cmd`isSignaled, cmd`recording, cmd`current, cmd.device`slots, cmd.device`completed
      ensures cmd.Valid() && cmd.Size() == COMMAND_BUFFER_COUNT && cmd.recording
      ensures old(cmd.device.completed) <= cmd.device.completed
      ensures forall k | 0 <= k < COMMAND_BUFFER_COUNT ::
                cmd.At(k) == if InWindow(k) then old(cmd.At(k)).Begun([]) else old(cmd.At(k))
    {
      for index := 0 to numCmd
        invariant cmd.Valid() && cmd.Size() == COMMAND_BUFFER_COUNT
        invariant cmd.current == Reached(current, index)
        invariant old(cmd.device.completed) <= cmd.device.completed
        invariant index > 0 ==> cmd.recording
        invariant forall k | 0 <= k < COMMAND_BUFFER_COUNT ::
          cmd.At(k) == if Offset(current, k, COMMAND_BUFFER_COUNT) < index
                       then old(cmd.At(k)).Begun([]) else old(cmd.At(k))
      {
        cmd.Record();
        cmd.Advance();
      }
    }

    /** Begins recording in every slot of the window, inside the render pass. */
    method BeginWindowInPass()
      requires Shape() && WindowRecording() && !cmd.recording && pass != null && pass.initialized
      modifies cmd`isSignaled, cmd`recording, cmd`current, cmd`startedRenderPass
      modifies cmd.device`slots, cmd.device`completed
      ensures cmd.Valid() && cmd.Size() == COMMAND_BUFFER_COUNT && cmd.recording
      ensures old(cmd.device.completed) <= cmd.device.completed
      ensures forall k | 0 <= k < COMMAND_BUFFER_COUNT ::
                cmd.At(k) == if InWindow(k) then old(cmd.At(k)).Begun([pass.CurrentFramebuffer()])
                             else old(cmd.At(k))
    {
      for index := 0 to numCmd
        invariant cmd.Valid() && cmd.Size() == COMMAND_BUFFER_COUNT
        invariant cmd.current == Reached(current, index)
        invariant old(cmd.device.completed) <= cmd.device.completed
        invariant index > 0 ==> cmd.recording
        invariant forall k | 0 <= k < COMMAND_BUFFER_COUNT ::
          cmd.At(k) == if Offset(current, k, COMMAND_BUFFER_COUNT) < index
                       then old(cmd.At(k)).Begun([pass.CurrentFramebuffer()]) else old(cmd.At(k))
      {
        cmd.RecordPass(pass.CurrentFramebuffer());
        cmd.Advance();
      }
    }

    /** The framebuffer of the render pass a recording opens, if it opens one. */
    ghost function Target(useRenderPass: bool): seq<nat>
      reads this, pass
      requires pass != null ==> pass.View().Valid()
    {
      if pass != null && pass.initialized && useRenderPass then [pass.CurrentFramebuffer()] else []
    }

    /** Recording begins in every slot of the window. */
    method OpenWindow(useRenderPass: bool)
      requires Shape() && WindowRecording() && !cmd.recording
      modifies cmd`isSignaled, cmd`startedRenderPass, cmd`recording, cmd`current
      modifies cmd.device`slots, cmd.device`completed
      ensures cmd.Valid() && cmd.Size() == COMMAND_BUFFER_COUNT && cmd.recording && cmd.current == current
      ensures old(cmd.device.completed) <= cmd.device.completed
      ensures forall k | 0 <= k < COMMAND_BUFFER_COUNT ::
                cmd.At(k) == if InWindow(k) then old(cmd.At(k)).Begun(Target(useRenderPass)) else old(cmd.At(k))
    {
      if pass != null && pass.initialized && useRenderPass {
        BeginWindowInPass();
      } else {
        BeginWindow();
      }
      cmd.SetActive(current);
    }

    /** Recording begins in every slot of the window, unless it is on already. */
    method BeginRecording(useRenderPass: bool)
      requires Valid()
      modifies cmd`isSignaled, cmd`startedRenderPass, cmd`recording, cmd`current
      modifies cmd.device`slots, cmd.device`completed
      ensures Valid() && cmd.recording
      ensures View() == old(View()).Opened(useRenderPass)
      ensures old(cmd.device.completed) <= cmd.device.completed
    {
      if !cmd.recording {
        OpenWindow(useRenderPass);
        WindowOpened(useRenderPass);
      } else {
        cmd.SetActive(current);
      }
    }

    /** What beginning every slot of the window means for the whole chain. */
    twostate lemma {:induction false} WindowOpened(useRenderPass: bool)
      requires old(Valid()) && !old(cmd.recording) && Shape() && cmd.recording
      requires unchanged(this) && (pass != null ==> unchanged(pass))
      requires cmd.device == old(cmd.device) && unchanged(cmd.device`submissions)
      requires forall k | 0 <= k < COMMAND_BUFFER_COUNT ::
                 cmd.At(k) == if InWindow(k) then old(cmd.At(k)).Begun(Target(useRenderPass)) else old(cmd.At(k))
      ensures Valid() && View() == old(View()).Opened(useRenderPass)
    {
      assert InWindow(current);
      forall k | 0 <= k < COMMAND_BUFFER_COUNT
        ensures cmd.At(k).slot.buffer.Recording? <==> InWindow(k)
      {
        assert !old(cmd.At(k)).slot.buffer.Recording?;
      }
    }

    /** Records the same commands into every slot of the window. */
    method RecordWindow(commands: seq<Command>)
      requires Shape() && WindowRecording() && cmd.recording && Plain(commands)
      modifies cmd`current, cmd.device`slots, cmd.device`completed
      ensures cmd.Valid() && cmd.Size() == COMMAND_BUFFER_COUNT && cmd.current == current
      ensures old(cmd.device.completed) <= cmd.device.completed
      ensures forall k | 0 <= k < COMMAND_BUFFER_COUNT ::
                cmd.At(k) == if InWindow(k) then old(cmd.At(k)).Recorded(commands) else old(cmd.At(k))
    {
      for index := 0 to numCmd
        invariant cmd.Valid() && cmd.Size() == COMMAND_BUFFER_COUNT
        invariant cmd.current == Reached(current, index)
        invariant old(cmd.device.completed) <= cmd.device.completed
        invariant forall k | 0 <= k < COMMAND_BUFFER_COUNT ::
          cmd.At(k) == if Offset(current, k, COMMAND_BUFFER_COUNT) < index
                       then old(cmd.At(k)).Recorded(commands) else old(cmd.At(k))
      {
        cmd.Append(commands);
        cmd.Advance();
      }
      cmd.SetActive(current);
    }

    /** The recording loop of every operation, after which there is something to submit. */
    method RecordReplicated(commands: seq<Command>)
      requires Valid() && cmd.recording && Plain(commands)
      modifies this`dirty, cmd`current, cmd.device`slots, cmd.device`completed
      ensures Valid()
      ensures View() == old(View()).(commands := old(View()).commands + commands, dirty := true)
      ensures old(cmd.device.completed) <= cmd.device.completed
    {
      assert InWindow(current);
      RecordWindow(commands);
      dirty := true;
      assert cmd.SlotDiscipline(current);
      forall k | 0 <= k < COMMAND_BUFFER_COUNT
        ensures cmd.At(k).slot.buffer.Recording? <==> InWindow(k)
        ensures InWindow(k) ==>
          && cmd.At(k).slot.commands == cmd.At(current).slot.commands
          && cmd.At(k).started == cmd.At(current).started
      {
        assert old(cmd.At(k)).slot.buffer.Recording? <==> InWindow(k);
      }
    }

    /** One recording operation: begin if necessary, record it in every slot of the
        window, and note that there is something to submit.  Executing the list then does
        in addition what the operation asks for. */
    method Perform(op: Operation)
      requires Valid()
      modifies this`hasRecord, this`dirty
      modifies cmd`isSignaled, cmd`startedRenderPass, cmd`recording, cmd`current
      modifies cmd.device`slots, cmd.device`completed
      ensures Valid() && cmd.recording
      ensures View() == old(View()).Performed(op)
      ensures Adds(old(View()), op, View())
      ensures old(cmd.device.completed) <= cmd.device.completed
    {
      PerformedEffects(View(), op);
      RecordOperation(op, View());
    }

    /** Both halves of an operation. */
    method RecordOperation(op: Operation, ghost s: List)
      requires Valid() && View() == s
      modifies this`hasRecord, this`dirty
      modifies cmd`isSignaled, cmd`startedRenderPass, cmd`recording, cmd`current
      modifies cmd.device`slots, cmd.device`completed
      ensures Valid() && cmd.recording
      ensures View() == s.Performed(op)
      ensures old(cmd.device.completed) <= cmd.device.completed
    {
      BeginRecording(if op.Push? then pass != null else op.IsDraw());
      Extend(op);
    }

    /** The part of an operation after recording has begun. */
    method Extend(op: Operation)
      requires Valid() && cmd.recording
      modifies this`hasRecord, this`dirty, cmd`current, cmd.device`slots, cmd.device`completed
      ensures Valid()
      ensures View() == old(View()).Extended(op)
      ensures old(cmd.device.completed) <= cmd.device.completed
    {
      if op.IsDraw() {
        hasRecord := true;
      }
      if !op.Transition? || !op.newLayout.VkUndefined? {
        CommandsArePlain(op);
        RecordReplicated(op.Commands());
      }
    }

    /** Opens the command list without recording anything yet. */
    method Begin()
      requires Valid()
      modifies cmd`isSignaled, cmd`startedRenderPass, cmd`recording, cmd`current
      modifies cmd.device`slots, cmd.device`completed
      ensures Valid() && cmd.recording
      ensures View() == old(View()).Opened(true)
      ensures old(cmd.device.completed) <= cmd.device.completed
    {
      BeginRecording(pass != null);
    }

    /** Ends every slot of the window. */
    method EndWindow()
      requires Shape() && WindowRecording() && cmd.recording
      modifies cmd`startedRenderPass, cmd`recording, cmd`current, cmd.device`slots, cmd.device`completed
      ensures cmd.Valid() && cmd.Size() == COMMAND_BUFFER_COUNT && cmd.current == current && !cmd.recording
      ensures old(cmd.device.completed) <= cmd.device.completed
      ensures forall k | 0 <= k < COMMAND_BUFFER_COUNT ::
                cmd.At(k) == if InWindow(k) then old(cmd.At(k)).Stopped() else old(cmd.At(k))
    {
      for index := 0 to numCmd
        invariant cmd.Valid() && cmd.Size() == COMMAND_BUFFER_COUNT
        invariant cmd.current == Reached(current, index)
        invariant old(cmd.device.completed) <= cmd.device.completed
        invariant index > 0 ==> !cmd.recording
        invariant forall k | 0 <= k < COMMAND_BUFFER_COUNT ::
          cmd.At(k) == if Offset(current, k, COMMAND_BUFFER_COUNT) < index
                       then old(cmd.At(k)).Stopped() else old(cmd.At(k))
      {
        cmd.Stop();
        cmd.Advance();
      }
      cmd.SetActive(current);
    }

    /** Closes the command list. */
    method End()
      requires Valid()
      modifies this`hasRecord
      modifies cmd`startedRenderPass, cmd`recording, cmd`current, cmd.device`slots, cmd.device`completed
      ensures Valid() && !cmd.recording
      ensures View() == old(View()).Closed()
      ensures old(cmd.device.completed) <= cmd.device.completed
    {
      if cmd.recording {
        assert InWindow(current);
        EndWindow();
        hasRecord := true;
        forall k | 0 <= k < COMMAND_BUFFER_COUNT
          ensures !cmd.At(k).slot.buffer.Recording?
        {
          assert old(cmd.At(k)).slot.buffer.Recording? <==> InWindow(k);
        }
      }
    }

    /** Closes the list and, if anything was recorded, hands exactly the current slot to
        the queue, with a fence that is unsignaled and tied to no pending work. */
    method Submit()
      requires Valid()
      modifies this`hasRecord, this`dirty, this`current, queue, cmd, cmd.device, pass
      ensures cmd.device == old(cmd.device)
      ensures Valid() && !cmd.recording && !dirty
      ensures View() == old(View()).Submitted()
      ensures old(cmd.device.completed) <= cmd.device.completed
      ensures old(dirty) ==>
        && |cmd.device.submissions| == |old(cmd.device.submissions)| + 1
        && cmd.device.submissions[|old(cmd.device.submissions)|].slot == old(current)
        && current == Next(old(current), COMMAND_BUFFER_COUNT)
      ensures !old(dirty) ==>
        cmd.device.submissions == old(cmd.device.submissions) && current == old(current)
    {
      End();
      if hasRecord && dirty {
        SubmitCurrent();
      }
    }

    /** The queue hand-over inside `Submit`. */
    method SubmitCurrent()
      requires Valid() && !cmd.recording && hasRecord && dirty
      modifies this`dirty, this`current, queue, cmd`isSignaled, cmd`current, cmd.device, pass
      ensures Valid() && !dirty
      ensures View() == old(View()).Submitted()
      ensures old(cmd.device.completed) <= cmd.device.completed
      ensures |cmd.device.submissions| == |old(cmd.device.submissions)| + 1
      ensures cmd.device.submissions[|old(cmd.device.submissions)|].slot == old(current)
      ensures current == Next(old(current), COMMAND_BUFFER_COUNT)
    {
      assert cmd.SlotDiscipline(current);
      queue.Submit(cmd);
      current := cmd.current;
      dirty := false;
      if pass != null {
        pass.Advance();
      }
      assert Sent(cmd.device.submissions) == old(Sent(cmd.device.submissions)) + [old(cmd.At(current)).slot.commands];
      RingOrderKept();
    }

    /** The order of the ring after one more submission from the current slot. */
    twostate lemma {:induction false} RingOrderKept()
      requires old(Valid()) && !old(cmd.recording) && Shape()
      requires cmd.device == old(cmd.device) && start == old(start) && current == Next(old(current), COMMAND_BUFFER_COUNT)
      requires |cmd.device.submissions| == |old(cmd.device.submissions)| + 1
      requires cmd.device.submissions[..|old(cmd.device.submissions)|] == old(cmd.device.submissions)
      requires cmd.device.submissions[|old(cmd.device.submissions)|].slot == old(current)
      requires forall k | 0 <= k < COMMAND_BUFFER_COUNT && k != old(current) :: cmd.At(k) == old(cmd.At(k))
      requires cmd.At(old(current)).slot.fence == Attached(|old(cmd.device.submissions)|)
      requires !cmd.At(old(current)).slot.buffer.Recording? && !cmd.recording
      ensures RingOrder() && WindowRecording()
    {
      var n := |old(cmd.device.submissions)|;
      NextSlot(start, n);
      forall i | 0 <= i <= n
        ensures cmd.device.submissions[i].slot == SlotAfter(start, i)
      {
        assert i < n ==> cmd.device.submissions[i] == old(cmd.device.submissions)[i];
      }
      forall k | 0 <= k < COMMAND_BUFFER_COUNT
        ensures !cmd.At(k).slot.buffer.Recording?
        ensures cmd.At(k).slot.fence.Attached? ==> cmd.At(k).slot.fence.submission + COMMAND_BUFFER_COUNT >= n + 1
      {
        if k != old(current) {
          SlotStaysRecent(k);
        }
      }
    }

    /** A slot that was not submitted now keeps a fence of one of the last four submissions,
        because the fourth-last used the slot that was. */
    twostate lemma {:induction false} SlotStaysRecent(k: nat)
      requires old(Valid()) && !old(cmd.recording) && Shape()
      requires cmd.device == old(cmd.device) && start == old(start)
      requires |cmd.device.submissions| == |old(cmd.device.submissions)| + 1
      requires cmd.device.submissions[..|old(cmd.device.submissions)|] == old(cmd.device.submissions)
      requires k < COMMAND_BUFFER_COUNT && k != old(current) && cmd.At(k) == old(cmd.At(k))
      ensures !cmd.At(k).slot.buffer.Recording?
      ensures cmd.At(k).slot.fence.Attached? ==>
        cmd.At(k).slot.fence.submission + COMMAND_BUFFER_COUNT >= |cmd.device.submissions|
    {
      var n := |old(cmd.device.submissions)|;
      assert !old(cmd.At(k)).slot.buffer.Recording?;
      assert old(cmd.SlotDiscipline(k));
      if cmd.At(k).slot.fence.Attached? {
        var m := cmd.At(k).slot.fence.submission;
        assert old(cmd.device.submissions)[m].slot == k;
        NotTheFourth(start, n, m);
      }
    }

    /** Chooses how many slots the next recording fills. */
    method SetMode(all: bool)
      requires Valid() && !cmd.recording
      modifies this`numCmd
      ensures Valid() && View() == old(View())
      ensures numCmd == if all then 4 else 1
    {
      numCmd := if all then COMMAND_BUFFER_COUNT else 1;
    }

    /** Moves an image to another layout.  The barrier starts from the layout the image
        reports; a move to `Undefined` records nothing, but recording has begun.  The new
        layout is remembered through the library's enumeration, so a move to
        `DepthStencil` is remembered as undefined. */
    method Transition(image: Image, layout: ImageLayout)
      requires Valid()
      modifies this`hasRecord, this`dirty, image`layout
      modifies cmd`isSignaled, cmd`startedRenderPass, cmd`recording, cmd`current
      modifies cmd.device`slots, cmd.device`completed
      ensures Valid()
      ensures View() ==
        old(View()).Performed(Operation.Transition(image.id, Seen(old(image.layout)), ToVulkan(layout)))
      ensures image.layout == AfterTransition(old(image.layout), layout)
      ensures !layout.Undefined? ==> (image.layout == ToVulkan(layout) <==> !layout.DepthStencil?)
      ensures layout.Undefined? ==> image.layout == old(image.layout)
      ensures old(cmd.device.completed) <= cmd.device.completed
    {
      Move(image, layout, View());
      TransitionRemembered(old(image.layout), layout);
    }

    /** The barrier, and what the image remembers. */
    method Move(image: Image, layout: ImageLayout, ghost s: List)
      requires Valid() && View() == s
      modifies this`hasRecord, this`dirty, image`layout
      modifies cmd`isSignaled, cmd`startedRenderPass, cmd`recording, cmd`current
      modifies cmd.device`slots, cmd.device`completed
      ensures Valid() && old(cmd.device.completed) <= cmd.device.completed
      ensures View() == s.Performed(Operation.Transition(image.id, Seen(old(image.layout)), ToVulkan(layout)))
      ensures image.layout == AfterTransition(old(image.layout), layout)
    {
      var newLayout, oldLayout := ToVulkan(layout), ToVulkan(FromVulkan(image.layout));
      RecordOperation(Operation.Transition(image.id, oldLayout, newLayout), s);
      Remember(image, newLayout);
    }

    /** Remembers a new layout, as far as the library's enumeration knows it; undefined is not
        remembered. */
    method Remember(image: Image, layout: VkLayout)
      modifies image`layout
      ensures image.layout == if layout.VkUndefined? then old(image.layout) else Seen(layout)
    {
      if layout != VkUndefined {
        image.layout := ToVulkan(FromVulkan(layout));
      }
    }

    /** Copies one image to another, in the layouts the two report. */
    method CopyImages(src: Image, dst: Image)
      requires Valid()
      modifies this`hasRecord, this`dirty
      modifies cmd`isSignaled, cmd`startedRenderPass, cmd`recording, cmd`current
      modifies cmd.device`slots, cmd.device`completed
      ensures Valid()
      ensures View() == old(View()).Performed(
                Operation.CopyImages(src.id, Seen(src.layout), dst.id, Seen(dst.layout)))
      ensures old(cmd.device.completed) <= cmd.device.completed
    {
      var srcLayout, dstLayout := ToVulkan(FromVulkan(src.layout)), ToVulkan(FromVulkan(dst.layout));
      RecordOperation(Operation.CopyImages(src.id, srcLayout, dst.id, dstLayout), View());
    }

    /** Fills an image from a buffer between two transitions.  The image gets its layout
        back if and only if that was neither undefined nor depth-stencil; otherwise it is
        left as a transfer target. */
    method CopyToImage(src: nat, image: Image)
      requires Valid()
      modifies this`hasRecord, this`dirty, image`layout
      modifies cmd`isSignaled, cmd`startedRenderPass, cmd`recording, cmd`current
      modifies cmd.device`slots, cmd.device`completed
      ensures Valid()
      ensures View() == old(View()).Filled(src, image.id, Seen(old(image.layout)))
      ensures var seen := Seen(old(image.layout));
        Gains(old(View()), View(),
          [LayoutChanged(image.id, seen, VkTransferDst)] + [ImageFilled(src, image.id)] +
          (if seen == VkUndefined then [] else [LayoutChanged(image.id, VkTransferDst, seen)]))
      ensures image.layout == AfterFill(old(image.layout))
      ensures image.layout == old(image.layout)
              <==> !old(image.layout).VkUndefined? && !old(image.layout).VkDepthStencil?
      ensures image.layout == old(image.layout) || image.layout == VkTransferDst
    {
      var layout := FromVulkan(image.layout);
      ghost var s := View();
      MoveAndFill(src, image, s);
      MoveBack(image, layout, View());
      FilledEffects(s, src, image.id, Seen(old(image.layout)));
      FillRestores(old(image.layout));
    }

    /** The first transition and the fill itself. */
    method MoveAndFill(src: nat, image: Image, ghost s: List)
      requires Valid() && View() == s
      modifies this`hasRecord, this`dirty, image`layout
      modifies cmd`isSignaled, cmd`startedRenderPass, cmd`recording, cmd`current
      modifies cmd.device`slots, cmd.device`completed
      ensures Valid() && image.layout == VkTransferDst
      ensures View() == s.Performed(Operation.Transition(image.id, Seen(old(image.layout)), VkTransferDst))
                        .Performed(FillImage(src, image.id))
    {
      Move(image, TransferDst, s);
      RecordOperation(FillImage(src, image.id), View());
    }

    /** The second transition, of an image that is a transfer target. */
    method MoveBack(image: Image, layout: ImageLayout, ghost s: List)
      requires Valid() && image.layout == VkTransferDst && View() == s
      modifies this`hasRecord, this`dirty, image`layout
      modifies cmd`isSignaled, cmd`startedRenderPass, cmd`recording, cmd`current
      modifies cmd.device`slots, cmd.device`completed
      ensures Valid()
      ensures View() == s.Performed(Operation.Transition(image.id, VkTransferDst, ToVulkan(layout)))
      ensures image.layout == AfterTransition(VkTransferDst, layout)
    {
      Move(image, layout, s);
    }

    /** Frees the ring and allocates a new one while the chain is idle.  Unsent work is not
        forgotten: the dirty flag survives, so the chain is sound again if and only if
        it was clean.  Otherwise its next submission would hand over a buffer that was
        never recorded, with a signaled fence. */
    method Reinitialize(pass: FramebufferRing?)
      requires Valid() && !cmd.recording
      requires pass != null ==> pass.View().Valid()
      requires forall n | 0 <= n < |cmd.device.submissions| :: !cmd.device.Pending(n)
      modifies this`pass, this`start, cmd`device, cmd`isSignaled, cmd`startedRenderPass
      ensures this.pass == pass && fresh(cmd.device) && Shape()
      ensures Valid() <==> !old(dirty)
      ensures old(dirty) ==> hasRecord && dirty && !cmd.device.CanSubmit(current)
      ensures !old(dirty) ==>
        View() == List(false, false, [], false, hasRecord, [], if pass == null then None else Some(pass.View()))
    {
      cmd.Reinitialize(COMMAND_BUFFER_COUNT);
      this.pass := pass;
      start := current;
    }

    /** What others do to the render pass does not matter to the chain. */
    twostate lemma {:induction false} PassMoved()
      requires old(Valid()) && unchanged(this) && unchanged(cmd) && unchanged(cmd.device)
      requires pass != null ==> pass.View().Valid()
      ensures Valid()
      ensures View() == old(View()).(pass := if pass == null then None else Some(pass.View()))
    {
    }

    /** Frames in flight.  Every pending submission is one of the last four and owns the
        fence of its slot; once the current slot is being filled, the submission that
        used it before has completed; and a replicated recording runs only when
        everything submitted before has completed. */
    lemma {:induction false} FramesInFlight(n: nat)
      requires Valid() && cmd.device.Pending(n)
      ensures cmd.Size() == 4 && n + 4 >= |cmd.device.submissions|
      ensures cmd.At(SlotAfter(start, n)).slot.fence == Attached(n)
      ensures cmd.At(SlotAfter(start, n)).slot.buffer == BufferState.Submitted(n)
      ensures !cmd.At(current).signaled ==> n + 4 > |cmd.device.submissions|
      ensures !(cmd.recording && numCmd == 4)
    {
      var k := SlotAfter(start, n);
      assert cmd.PendingIsLatest(n);
      assert cmd.SlotDiscipline(k) && cmd.SlotDiscipline(current);
      assert cmd.At(k).slot == cmd.device.slots[k];
    }
  }

  /** One client event. */
  method RunEvent(chain: Chain, e: Event)
    requires chain.Valid() && Legal(chain.View(), e)
    modifies chain, chain.queue, chain.cmd, chain.cmd.device, chain.pass
    ensures chain.Valid() && chain.View() == Step(old(chain.View()), e)
    ensures chain.pass == old(chain.pass) && chain.cmd.device == old(chain.cmd.device)
    ensures chain.start == old(chain.start)
  {
    match e {
      case Begin => chain.Begin();
      case Perform(op) => chain.Perform(op);
      case End => chain.End();
      case Submit => chain.Submit();
      case SetMode(all) => chain.SetMode(all);
      case PassAdvanced => chain.pass.Advance();
      case PassRebuilt(handles) =>
        chain.pass.Drop();
        chain.pass.Make(handles);
    }
  }

  /** Runs a client program, with any completions of the GPU in between.  Every call into
      the driver inside obeys its valid-usage rules, and what reaches the queue is what
      the single command list would have sent. */
  method RunProgram(chain: Chain, events: seq<Event>)
    requires chain.Valid() && LegalRun(chain.View(), events)
    modifies chain, chain.queue, chain.cmd, chain.cmd.device, chain.pass
    ensures chain.Valid() && chain.View() == Run(old(chain.View()), events)
    ensures chain.pass == old(chain.pass) && chain.cmd.device == old(chain.cmd.device)
    ensures chain.start == old(chain.start)
    decreases |events|
  {
    if events != [] {
      RunEvent(chain, events[0]);
      RunProgram(chain, events[1..]);
    }
  }

  /** Runs a client program on an idle chain.  Executing what reached the queue and what is
      still to be sent does exactly what the program asked for, in order, provided
      that it never begins again over an ended list. */
  method RunAndDeliver(chain: Chain, events: seq<Event>)
    requires chain.Valid() && chain.View().Good() && !chain.cmd.recording && !chain.dirty
    requires LegalRun(chain.View(), events) && DiscardFree(chain.View(), events)
    modifies chain, chain.queue, chain.cmd, chain.cmd.device, chain.pass
    ensures chain.Valid()
    ensures Effected(chain.View()) ==
      old(Effected(chain.View())) + old(WantedEffects(Client(false, None, None), chain.View(), events))
  {
    EffectsDelivered(Client(false, None, None), chain.View(), events);
    RunProgram(chain, events);
  }

  /** The slots follow from the order, so equal contents are equal submissions. */
  lemma {:induction false} SameSubmissions(a: seq<Submission>, b: seq<Submission>, start: nat)
    requires Sent(a) == Sent(b)
    requires forall n | 0 <= n < |a| :: a[n].slot == SlotAfter(start, n)
    requires forall n | 0 <= n < |b| :: b[n].slot == SlotAfter(start, n)
    ensures a == b
  {
    assert |a| == |Sent(a)| == |Sent(b)| == |b|;
    forall n | 0 <= n < |a| ensures a[n] == b[n] {
      assert Sent(a)[n] == Sent(b)[n];
    }
  }

  /** Mode equivalence.  Take two chains that started alike and have run client programs
      that differ only in their mode changes.  Whatever the modes, the same lists have
      reached the queues, in the same order and from the same slots. */
  lemma {:induction false} ModeEquivalence(a: Chain, b: Chain, s: List, eventsA: seq<Event>, eventsB: seq<Event>)
    requires s.PassOk() && LegalRun(s, eventsA) && LegalRun(s, eventsB)
    requires WithoutModes(eventsA) == WithoutModes(eventsB)
    requires a.Valid() && a.View() == Run(s, eventsA)
    requires b.Valid() && b.View() == Run(s, eventsB)
    ensures a.View() == b.View()
    ensures a.start == b.start ==> a.cmd.device.submissions == b.cmd.device.submissions
  {
    ModesInvisible(s, eventsA);
    ModesInvisible(s, eventsB);
    assert a.View().sent == b.View().sent;
    if a.start == b.start {
      SameSubmissions(a.cmd.device.submissions, b.cmd.device.submissions, a.start);
    }
  }

  /** Runs two chains side by side; the hypotheses of `ModeEquivalence` are met. */
  method RunInTwoModes(a: Chain, b: Chain, eventsA: seq<Event>, eventsB: seq<Event>)
    requires a.Valid() && b.Valid() && a.View() == b.View()
    requires LegalRun(a.View(), eventsA) && LegalRun(b.View(), eventsB)
    requires WithoutModes(eventsA) == WithoutModes(eventsB)
    requires a != b && a.queue != b.queue && a.cmd != b.cmd && a.cmd.device != b.cmd.device
    requires a.pass == null || a.pass != b.pass
    modifies a, a.queue, a.cmd, a.cmd.device, a.pass, b, b.queue, b.cmd, b.cmd.device, b.pass
    ensures a.Valid() && b.Valid()
    ensures a.View() == b.View()
    ensures old(a.start) == old(b.start) ==> a.cmd.device.submissions == b.cmd.device.submissions
  {
    ghost var start := a.View();
    RunProgram(a, eventsA);
    assert b.Valid() && b.View() == start;
    RunProgram(b, eventsB);
    ModeEquivalence(a, b, start, eventsA, eventsB);
  }
}
