/** A ring of command buffers with one fence each. */
module CommandBuffers {
  import opened Driver

  /** One step around a ring of `n`. */
  function Next(i: nat, n: nat): nat {
    if i + 1 >= n then 0 else i + 1
  }

  /** How many steps lead from `from` to `k` in a ring of `n`. */
  function Offset(from: nat, k: nat, n: nat): (r: nat)
    requires from < n && k < n
    ensures r < n
    ensures r == 0 <==> k == from
  {
    if k >= from then k - from else k + n - from
  }

  /** All that is known about one slot: the host's two flags and the driver's view. */
  datatype Cell = Cell(signaled: bool, started: bool, slot: Slot) {

    /** The slot has begun recording, inside a render pass when one is given. */
    function Begun(framebuffer: seq<nat>): Cell {
      Cell(false, framebuffer != [],
           Slot(Recording, framebuffer != [],
                if framebuffer == [] then [] else [BeginRenderPass(framebuffer[0])],
                Unsignaled))
    }

    function Recorded(commands: seq<Command>): Cell {
      this.(slot := slot.(commands := slot.commands + commands))
    }

    function Stopped(): Cell {
      this.(started := false,
            slot := slot.(buffer := Executable, inPass := false,
                          commands := slot.commands + (if started then [EndRenderPass] else [])))
    }
  }

  class CommandBuffer {
    var device: Device
    var isSignaled: seq<bool>
    var startedRenderPass: seq<bool>
    var recording: bool
    var current: nat

    function Size(): nat
      reads this
    {
      |isSignaled|
    }

    function At(k: nat): Cell
      reads this, device
      requires k < |isSignaled| == |startedRenderPass| == |device.slots|
    {
      Cell(isSignaled[k], startedRenderPass[k], device.slots[k])
    }

    ghost predicate Shape()
      reads this, device
    {
      && |isSignaled| == |startedRenderPass| == |device.slots|
      && current < |isSignaled|
      && device.Valid()
    }

    /** The flag tells the truth about the fence: when it is false the fence is
        unsignaled and belongs to no submission, and the buffer is being recorded or
        ready; when it is true the fence is signaled, or will be by the submission
        that last took this slot. */
    ghost predicate SlotDiscipline(k: nat)
      reads this, device
      requires Shape() && k < Size()
    {
      var c := At(k);
      && (if c.signaled then
            || (c.slot.fence.CreatedSignaled? && c.slot.buffer.Initial?)
            || (&& c.slot.fence.Attached?
                && c.slot.buffer == Submitted(c.slot.fence.submission)
                && c.slot.fence.submission < |device.submissions|
                && device.submissions[c.slot.fence.submission].slot == k)
          else
            c.slot.fence.Unsignaled? && (c.slot.buffer.Recording? || c.slot.buffer.Executable?))
      && c.started == c.slot.inPass
      && (c.started ==> c.slot.buffer.Recording?)
    }

    /** Work that is still pending is the last work of its slot. */
    ghost predicate PendingIsLatest(n: nat)
      reads this, device
      requires Shape() && n < |device.submissions|
    {
      device.Pending(n) ==> device.slots[device.submissions[n].slot].fence == Attached(n)
    }

    ghost predicate Valid()
      reads this, device
    {
      && Shape()
      && (forall k | 0 <= k < Size() :: SlotDiscipline(k))
      && (forall n | 0 <= n < |device.submissions| :: PendingIsLatest(n))
    }

    constructor (count: nat)
      requires count > 0
      ensures Valid() && Size() == count && fresh(device)
      ensures !recording && current == 0
      ensures forall k | 0 <= k < count :: At(k) == Cell(true, false, Slot(Initial, false, [], CreatedSignaled))
      ensures device.submissions == []
    {
      device := new Device(count);
      isSignaled := seq(count, _ => true);
      startedRenderPass := seq(count, _ => false);
      recording, current := false, 0;
    }

    /** Frees the buffers and allocates `count` new ones with fresh fences.  Neither
        the ring index nor the recording flag is touched. */
    method Reinitialize(count: nat)
      requires Valid() && current < count && !recording
      requires forall n | 0 <= n < |device.submissions| :: !device.Pending(n)
      modifies this`device, this`isSignaled, this`startedRenderPass
      ensures Valid() && Size() == count && fresh(device)
      ensures forall k | 0 <= k < count :: At(k) == Cell(true, false, Slot(Initial, false, [], CreatedSignaled))
      ensures device.submissions == []
    {
      device := new Device(count);
      isSignaled := seq(count, _ => true);
      startedRenderPass := seq(count, _ => false);
    }

    /** Waits for the slot's last submission and takes its fence back. */
    method ReclaimFence()
      requires Valid() && !At(current).slot.buffer.Recording?
      modifies this`isSignaled, device`slots, device`completed
      ensures Shape() && Size() == old(Size())
      ensures old(device.completed) <= device.completed
      ensures forall k | 0 <= k < Size() && k != current :: At(k) == old(At(k))
      ensures At(current) == old(At(current)).(signaled := false, slot := At(current).slot)
      ensures device.slots[current] == old(device.slots)[current].(fence := Unsignaled)
      ensures device.slots[current].buffer.Submitted? ==> device.slots[current].buffer.submission in device.completed
    {
      assert SlotDiscipline(current);
      if isSignaled[current] {
        device.WaitForFence(current);
        device.ResetFence(current);
        isSignaled := isSignaled[current := false];
      }
    }

    /** What a call that works on slot `i` only leaves intact everywhere else.  If it
        takes the fence of slot `i` from a submission, that submission had completed. */
    twostate lemma {:induction false} OthersKept(i: nat)
      requires old(Valid()) && Shape() && Size() == old(Size()) && i < Size()
      requires device == old(device) && old(device.completed) <= device.completed
      requires |old(device.submissions)| <= |device.submissions|
      requires device.submissions[..|old(device.submissions)|] == old(device.submissions)
      requires forall k | 0 <= k < Size() && k != i :: At(k) == old(At(k))
      requires
        || device.slots[i].fence == old(device.slots)[i].fence
        || (old(device.slots)[i].fence.Attached? ==> old(device.slots)[i].fence.submission in device.completed)
      ensures forall k | 0 <= k < Size() && k != i :: SlotDiscipline(k)
      ensures forall n | 0 <= n < |old(device.submissions)| :: PendingIsLatest(n)
    {
      forall k | 0 <= k < Size() && k != i ensures SlotDiscipline(k) {
        assert old(SlotDiscipline(k));
        assert At(k) == old(At(k));
      }
      forall n | 0 <= n < |old(device.submissions)| ensures PendingIsLatest(n) {
        assert old(PendingIsLatest(n));
        assert device.submissions[n] == old(device.submissions)[n];
        var k := device.submissions[n].slot;
        assert k != i ==> At(k) == old(At(k));
      }
    }

    /** Begins recording into the current slot, outside any render pass. */
    method Record()
      requires Valid() && !At(current).slot.buffer.Recording?
      modifies this`isSignaled, this`recording, device`slots, device`completed
      ensures Valid() && Size() == old(Size()) && recording
      ensures old(device.completed) <= device.completed
      ensures forall k | 0 <= k < Size() && k != current :: At(k) == old(At(k))
      ensures At(current) == old(At(current)).Begun([])
    {
      assert SlotDiscipline(current);
      ReclaimFence();
      device.BeginCommandBuffer(current);
      recording := true;
      OthersKept(current);
    }

    /** Begins recording into the current slot, inside a render pass on `framebuffer`. */
    method RecordPass(framebuffer: nat)
      requires Valid() && !At(current).slot.buffer.Recording?
      modifies this`isSignaled, this`recording, this`startedRenderPass, device`slots, device`completed
      ensures Valid() && Size() == old(Size()) && recording
      ensures old(device.completed) <= device.completed
      ensures forall k | 0 <= k < Size() && k != current :: At(k) == old(At(k))
      ensures At(current) == old(At(current)).Begun([framebuffer])
    {
      assert SlotDiscipline(current);
      ReclaimFence();
      device.BeginCommandBuffer(current);
      device.Record(current, BeginRenderPass(framebuffer));
      recording := true;
      startedRenderPass := startedRenderPass[current := true];
      OthersKept(current);
    }

    /** Records commands into the current slot. */
    method Append(commands: seq<Command>)
      requires Valid() && At(current).slot.buffer.Recording?
      requires forall c | c in commands :: !c.BeginRenderPass? && !c.EndRenderPass?
      modifies device`slots, device`completed
      ensures Valid() && Size() == old(Size())
      ensures old(device.completed) <= device.completed
      ensures forall k | 0 <= k < Size() && k != current :: At(k) == old(At(k))
      ensures At(current) == old(At(current)).Recorded(commands)
    {
      assert SlotDiscipline(current);
      for i := 0 to |commands|
        invariant Shape() && Size() == old(Size())
        invariant old(device.completed) <= device.completed
        invariant forall k | 0 <= k < Size() && k != current :: At(k) == old(At(k))
        invariant At(current) == old(At(current)).Recorded(commands[..i])
      {
        device.Record(current, commands[i]);
        assert commands[..i + 1] == commands[..i] + [commands[i]];
      }
      assert commands[..|commands|] == commands;
      OthersKept(current);
    }

    /** Ends the current slot, closing its render pass if it started one. */
    method Stop()
      requires Valid() && At(current).slot.buffer.Recording?
      modifies this`recording, this`startedRenderPass, device`slots, device`completed
      ensures Valid() && Size() == old(Size()) && !recording
      ensures old(device.completed) <= device.completed
      ensures forall k | 0 <= k < Size() && k != current :: At(k) == old(At(k))
      ensures At(current) == old(At(current)).Stopped()
    {
      assert SlotDiscipline(current);
      recording := false;
      if startedRenderPass[current] {
        device.Record(current, EndRenderPass);
      }
      device.EndCommandBuffer(current);
      startedRenderPass := startedRenderPass[current := false];
      OthersKept(current);
    }

    /** Moving the ring index alone changes nothing about the slots. */
    twostate lemma {:induction false} IndexIrrelevant()
      requires old(Valid()) && Shape()
      requires device == old(device) && unchanged(this`isSignaled, this`startedRenderPass, device)
      ensures Valid()
    {
      forall k | 0 <= k < Size() ensures SlotDiscipline(k) {
        assert old(SlotDiscipline(k));
      }
      forall n | 0 <= n < |device.submissions| ensures PendingIsLatest(n) {
        assert old(PendingIsLatest(n));
      }
    }

    /** Hands out the fence of the current slot, noting that it will be signaled. */
    method Fence() returns (slot: nat)
      requires Shape()
      modifies this`isSignaled
      ensures slot == current
      ensures isSignaled == old(isSignaled)[current := true]
    {
      isSignaled := isSignaled[current := true];
      slot := current;
    }

    /** Moves to the next slot of the ring. */
    method Advance()
      requires Valid()
      modifies this`current
      ensures Valid() && current == Next(old(current), Size())
    {
      current := current + 1;
      if current >= Size() {
        current := 0;
      }
      IndexIrrelevant();
    }

    /** Selects a slot; an index out of range is ignored. */
    method SetActive(index: nat)
      requires Valid()
      modifies this`current
      ensures Valid() && current == if index < Size() then index else old(current)
    {
      current := if index < Size() then index else current;
      IndexIrrelevant();
    }
  }

  /** The queue a chain submits to, with its cached submit structure. */
  class Queue {
    var commandBuffers: seq<nat>

    constructor ()
      ensures commandBuffers == []
    {
      commandBuffers := [];
    }

    /** Submits exactly the current slot with its fence, then moves the ring by one. */
    method Submit(cmd: CommandBuffer)
      requires cmd.Valid() && cmd.device.CanSubmit(cmd.current)
      modifies this, cmd`isSignaled, cmd`current, cmd.device
      ensures cmd.Valid() && cmd.Size() == old(cmd.Size())
      ensures old(cmd.device.completed) <= cmd.device.completed
      ensures var i := old(cmd.current);
        && cmd.current == Next(i, cmd.Size())
        && cmd.device.submissions ==
           old(cmd.device.submissions) + [Submission(i, old(cmd.device.slots)[i].commands)]
        && |old(cmd.device.submissions)| !in cmd.device.completed
        && cmd.At(i) == old(cmd.At(i)).(signaled := true,
             slot := old(cmd.At(i)).slot.(buffer := Submitted(|old(cmd.device.submissions)|),
                                          fence := Attached(|old(cmd.device.submissions)|)))
        && forall k | 0 <= k < cmd.Size() && k != i :: cmd.At(k) == old(cmd.At(k))
    {
      assert cmd.SlotDiscipline(cmd.current);
      commandBuffers := [cmd.current];
      var i := cmd.Fence();
      cmd.device.QueueSubmit(i);
      cmd.OthersKept(i);
      assert cmd.SlotDiscipline(i);
      assert cmd.PendingIsLatest(|old(cmd.device.submissions)|);
      assert cmd.Valid();
      cmd.Advance();
    }
  }
}
