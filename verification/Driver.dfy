/** The commands a client records, and the part of the graphics driver that a
    command-recording chain talks to.  The preconditions of `Device`'s methods are
    the valid-usage rules of the Vulkan 1.2 specification: section 6.1 (command
    buffer lifecycle), section 6.5 (command buffer submission) and section 7.3
    (fences).  A caller that verifies obeys them in every run. */
module Driver {
  import opened Layouts

  /** Commands as they reach the driver.  Handles are numbers. */
  datatype Command =
    | BeginRenderPass(framebuffer: nat)
    | EndRenderPass
    | PipelineBarrier(srcStage: nat, dstStage: nat)
    | ImageBarrier(image: nat, oldLayout: VkLayout, newLayout: VkLayout)
    | BufferBarrier(buffer: nat)
    | CopyBuffer(src: nat, dst: nat, size: nat, srcOffset: nat, dstOffset: nat)
    | CopyImage(srcImage: nat, srcLayout: VkLayout, dstImage: nat, dstLayout: VkLayout)
    | CopyImageToBuffer(srcImage: nat, dst: nat)
    | CopyBufferToImage(src: nat, dstImage: nat)
    | BindPipeline(pipeline: nat)
    | BindDescriptorSet(pipeline: nat, descriptor: nat)
    | BindVertexBuffer(buffer: nat, offset: nat)
    | BindIndexBuffer(buffer: nat)
    | Draw(vertices: nat, instances: nat)
    | DrawIndexed(indices: nat, instances: nat)
    | PushConstants(pipeline: nat, offset: nat, size: nat, value: nat)

  /** Where a command buffer stands.  A submitted buffer is pending until the GPU
      has completed that submission, and executable again afterwards. */
  datatype BufferState = Initial | Recording | Executable | Submitted(submission: nat)

  /** A fence is created signaled, or was reset, or was handed to a submission; in
      the last case it is signaled once that submission has completed. */
  datatype FenceState = CreatedSignaled | Unsignaled | Attached(submission: nat)

  /** One command buffer together with its fence, as the driver sees them. */
  datatype Slot = Slot(buffer: BufferState, inPass: bool, commands: seq<Command>, fence: FenceState)

  datatype Submission = Submission(slot: nat, commands: seq<Command>)

  class Device {
    var slots: seq<Slot>
    var submissions: seq<Submission>
    var completed: set<nat>

    ghost predicate Valid()
      reads this
    {
      && (forall n | n in completed :: n < |submissions|)
      && (forall n | 0 <= n < |submissions| :: submissions[n].slot < |slots|)
    }

    /** The GPU still has to execute submission `n`. */
    predicate Pending(n: nat)
      reads this
    {
      n < |submissions| && n !in completed
    }

    /** Slot `i` may be handed to a queue with its own fence. */
    predicate CanSubmit(i: nat)
      reads this
      requires i < |slots|
    {
      && (slots[i].buffer.Executable? || (slots[i].buffer.Submitted? && !Pending(slots[i].buffer.submission)))
      && slots[i].fence.Unsignaled?
    }

    constructor (count: nat)
      ensures Valid()
      ensures slots == seq(count, i => Slot(Initial, false, [], CreatedSignaled))
      ensures submissions == [] && completed == {}
    {
      slots := seq(count, i => Slot(Initial, false, [], CreatedSignaled));
      submissions, completed := [], {};
    }

    /** The GPU completes any set of pending submissions, in any order.  Every call
        into the driver starts with such a step, so completion interleaves with
        host calls in every possible way. */
    method GpuProgress()
      requires Valid()
      modifies this`completed
      ensures Valid()
      ensures old(completed) <= completed
    {
      var finished: set<nat> := *;
      if forall n | n in finished :: n < |submissions| {
        completed := completed + finished;
      }
    }

    /** Blocks until the fence is signaled.  Waiting for a fence that nothing will
        signal would never return, hence the precondition. */
    method WaitForFence(i: nat)
      requires Valid() && i < |slots|
      requires !slots[i].fence.Unsignaled?
      requires slots[i].fence.Attached? ==> slots[i].fence.submission < |submissions|
      modifies this`completed
      ensures Valid()
      ensures old(completed) <= completed
      ensures slots[i].fence.Attached? ==> slots[i].fence.submission in completed
    {
      GpuProgress();
      if slots[i].fence.Attached? {
        completed := completed + {slots[i].fence.submission};
      }
    }

    method ResetFence(i: nat)
      requires Valid() && i < |slots|
      requires slots[i].fence.Attached? ==> !Pending(slots[i].fence.submission)
      modifies this`slots, this`completed
      ensures Valid()
      ensures old(completed) <= completed
      ensures slots == old(slots)[i := old(slots)[i].(fence := Unsignaled)]
    {
      GpuProgress();
      slots := slots[i := slots[i].(fence := Unsignaled)];
    }

    method BeginCommandBuffer(i: nat)
      requires Valid() && i < |slots|
      requires !slots[i].buffer.Recording?
      requires slots[i].buffer.Submitted? ==> !Pending(slots[i].buffer.submission)
      modifies this`slots, this`completed
      ensures Valid()
      ensures old(completed) <= completed
      ensures slots == old(slots)[i := old(slots)[i].(buffer := Recording, inPass := false, commands := [])]
    {
      GpuProgress();
      slots := slots[i := slots[i].(buffer := Recording, inPass := false, commands := [])];
    }

    /** Records one command; render passes must be bracketed properly. */
    method Record(i: nat, command: Command)
      requires Valid() && i < |slots|
      requires slots[i].buffer.Recording?
      requires command.BeginRenderPass? ==> !slots[i].inPass
      requires command.EndRenderPass? ==> slots[i].inPass
      modifies this`slots, this`completed
      ensures Valid()
      ensures old(completed) <= completed
      ensures slots == old(slots)[i := old(slots)[i].(
                commands := old(slots)[i].commands + [command],
                inPass := if command.BeginRenderPass? then true
                          else if command.EndRenderPass? then false else old(slots)[i].inPass)]
    {
      GpuProgress();
      slots := slots[i := slots[i].(
        commands := slots[i].commands + [command],
        inPass := if command.BeginRenderPass? then true
                  else if command.EndRenderPass? then false else slots[i].inPass)];
    }

    method EndCommandBuffer(i: nat)
      requires Valid() && i < |slots|
      requires slots[i].buffer.Recording? && !slots[i].inPass
      modifies this`slots, this`completed
      ensures Valid()
      ensures old(completed) <= completed
      ensures slots == old(slots)[i := old(slots)[i].(buffer := Executable)]
    {
      GpuProgress();
      slots := slots[i := slots[i].(buffer := Executable)];
    }

    /** vkQueueSubmit of one command buffer, signaling the fence of its slot. */
    method QueueSubmit(i: nat)
      requires Valid() && i < |slots|
      requires CanSubmit(i)
      modifies this
      ensures Valid()
      ensures old(completed) <= completed
      ensures submissions == old(submissions) + [Submission(i, old(slots)[i].commands)]
      ensures |old(submissions)| !in completed
      ensures slots == old(slots)[i := old(slots)[i].(
                buffer := Submitted(|old(submissions)|), fence := Attached(|old(submissions)|))]
    {
      GpuProgress();
      var n := |submissions|;
      submissions := submissions + [Submission(i, slots[i].commands)];
      slots := slots[i := slots[i].(buffer := Submitted(n), fence := Attached(n))];
    }
  }
}
