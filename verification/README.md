# NyxGPU: recording, presenting, loading

A Dafny model of the stateful core of NyxGPU, a C++ wrapper around Vulkan, with proofs
about all of its runs.  `dafny verify dfyconfig.toml` checks everything.

**The command-recording ring** (`Layouts`, `Driver`, `Framebuffers`, `CommandBuffers`,
`CommandList`, `Effects`, `Chains`).  A chain records into a ring of four command buffers, one at a time or all
together, and submits them one by one.  `Driver.Device` is the driver with its valid-usage
rules as preconditions (Vulkan 1.2 specification, sections 6.1, 6.5 and 7.3); the GPU may
complete any pending work before every driver call.  `CommandList` is what a chain means: one
list, a dirty flag, and the lists sent.  Every method of `Chain` refines one step of it
(`View`), and the laws of all runs are proved on it: matching render-pass brackets,
exactly-once delivery, invisibility of the modes, framebuffers used in turn.  `Effects` says what
a list does when it is executed (draws with everything bound, copies, barriers, constants), and
that executing what a chain sends does exactly what its operations asked for.

**The present protocol** (`Presentation`, `Swapchains`, `Histories`, `WaitStates`,
`RenderPasses`).  A queue of acquired
images, a frame counter, a fence and a semaphore per frame, and recreation when the surface
changes.  What the driver answers to every acquire and present is an oracle, and everything is
proved for all oracles.  `RenderPass.Protocol` is kept by every step, and it ties the state to
the answers: exactly the accepted images were handed out, presenting is off if and only if an
acquire ever failed, and between frames an image is outstanding if and only if the last acquire
succeeded.  Which acquires are given a free semaphore, and which semaphores each present waits
for, is characterized exactly, in every run.

**Drawing and presenting together** (`RenderLoops`): a chain that draws into the framebuffers of
a window, and when the image presented for a frame is the one the frame was drawn into.

**Render-pass layout** (`Subpasses`): the lists that `addSubpass` grows together.

**File formats** (`Codec`, `Streams`, `NyxFiles`, `NssFiles`): the encoders are the
specification, the parsers are proved to be their exact inverses, and the stream-reading loops
are proved to compute the parsers.  `NssFiles` also resolves the links between bones.

**Shader reflection** (`OrderedMaps`, `ShaderReflection`): the vertex layout, the merged
descriptor bindings, and their agreement with the descriptor pool.

**The event registry** (`Events`, `EventRuns`) and the **staging pool** (`StagingPool`).

Some of what one might expect is not so.  The model keeps the code, and the exact condition
is proved in the member named:

- Ending a list and beginning again before a submission loses the list, and an empty one is
  sent (`EndedListLost`); nothing is lost if and only if this never happens (`ExactlyOnce`).
- `Chain::initialize` does not clear the dirty flag: the chain is sound afterwards if and only
  if it was clean (`Chain.Reinitialize`).
- The conversion from Vulkan layouts has no case for depth-stencil attachments
  (src/vkg/Vulkan.cpp:537-552).  A transition to depth-stencil is remembered as undefined
  (`DepthStencilForgotten`), and filling an image restores its layout if and only if that was
  neither undefined nor depth-stencil (`FillRestores`, `FillLosesLayout`).
- A failed acquire switches presenting off for good: `skip_frame` is never cleared
  (`RenderPass.Presented`, src/vkg/Swapchain.cpp:306-309).  If the acquire after a recreation
  fails too, no image is outstanding and the next submission would read an empty queue
  (`NothingToSubmit`, `LoseImage`).
- Presents are indexed by image and acquires by frame: each present waits for the semaphore of
  its own image if and only if the two numbers agree (`PresentsWait`, `Unpaired`).
- A present may wait for one semaphore twice (`WaitsTwice`): it does not if and only if the
  acquires that filled its list were given free ones (`WaitsOnce`).
- After a failed acquire nothing waits on semaphores any more, so as soon as the slots have gone
  round an acquire is given a semaphore whose signal is still pending (`SemaphoreReused`).
  `SemaphoreFree` says of every acquire of every run whether its semaphore was free.
- A recreation resets the framebuffer counter but not the frame counter: afterwards a frame may
  present an image other than the one it drew into (`WrongAfterRecreation`).  `RenderWindow` and
  `RightWithThreeImages` say exactly when, in terms of the driver's answers.
- The depth pointer of a subpass with depth is right if and only if there is no depth attachment
  yet, and of one without depth if and only if there never was one (`PassLayout.AddSubpass`).  A
  second one with depth shares the first one's (`SecondDepthShared`), one without depth gets
  it too (`DepthNotAskedFor`), and a reset does not help (`StaleDepth`).
- Of the subpasses a new one depends on, only the last whose number is below the number of
  *dependencies* so far is recorded, and 0 if there is none (`PassLayout.AddSubpass`): the third of
  three subpasses asks for the second and gets the first (`DependencyMisdirected`).
  `LastNamedRecorded` says exactly when the last one named is recorded.
- Stage masks of descriptors may be too wide (`MaskTooWide`); `MaskExact` says exactly when.
- The descriptor layout keeps the first declaration of a name and the pool the last: they agree
  if and only if the two bindings do (`LayoutPoolAgree`, `PoolDiffers`).
- Initializing a pool again does not clear its map: it then accepts names the new layout does not
  have (`StaleName`), unless the new file declares every name it knew (`AcceptedExactly`).
- Resetting an event manager that is not destroyed leaves dangling iterators unless it had
  enrolled nothing (`Registry.Reset`).
- The search for a staging buffer goes round for ever when the pool is full and all buffers
  are held (`FullPoolSpins`); it ends if and only if that is not so (`SearchEnds`).

The main results are `RunProgram` and `ModeEquivalence` with `FramesInFlight`; `ExactlyOnce`,
`NeverMore` and `EffectsDelivered`; `RenderPass.Present` and `SemaphoreFree`; `RenderWindow`; the two `RoundTrip` lemmas with `FindBones`;
`ParseInputs` with `ByteOwner`; `MergeExact` with `AcceptedNamesAreBound`; `PassLayout.AddSubpass`; and the run theorems of the
registry and of the pool, both named `RunCalls`.

## Model

| member | source | states |
|---|---|---|
| Chains.ModeEquivalence | src/vkg/Chain.cpp:100-134 | two chains whose client programs differ only in mode changes have sent the same lists, in the same order and from the same slots, framebuffer of each pass included |
| Chains.RunInTwoModes | src/vkg/Chain.cpp:318-345 | running both programs on the real rings, with any GPU completions in between, ends in equal submissions; the hypotheses of ModeEquivalence are met |
| Chains.RunProgram | src/vkg/Chain.cpp:329-420 | over any client program the ring keeps its invariant, every driver call obeys the rules on buffer lifecycle, fences, submission and pass brackets (not those on which commands a pass allows, nor on framebuffers destroyed while a list uses them), and what reached the queue is what one plain command list would have sent |
| Chains.RunEvent | src/vkg/Chain.cpp:353-420 | each client event on the ring refines exactly one step of the list |
| Chains.Chain.FramesInFlight | src/vkg/Chain.cpp:50 | a pending submission is among the last four and owns its slot's fence; while the current slot is filled, pending work is among the last three; while all slots are recorded nothing is pending |
| Chains.Chain.BeginRecording | src/vkg/Chain.cpp:100-134 | if not recording, exactly the slots of the window begin, with a pass on the current framebuffer when one applies; both ring indices are equal afterwards |
| Chains.Chain.RecordReplicated | src/vkg/Chain.cpp:411-418 | the loop over the window appends the same commands to every replica, rewinds, and marks the chain dirty |
| Chains.Chain.Perform | src/vkg/Chain.cpp:396-420 | every recording operation extends the one list by its commands, opening it if needed; executing the list then does in addition what the operation asks for, in the pass the list is in or, for draws and constants, in the one it opens |
| Chains.RunAndDeliver | src/vkg/Chain.cpp:329-420 | a client program that never begins again over an ended list, run on the ring: executing what reached the queue and what is pending does exactly what it asked for, in order |
| Effects.OperationExecuted | src/vkg/CommandBuffer.cpp:187-214 | for every operation and whatever is bound before, executing the commands it records does exactly what its arguments ask for: a draw draws that many vertices and instances with that pipeline, buffer and descriptor set; it keeps the render target |
| Effects.EffectsDelivered | src/vkg/Chain.cpp:363-759 | over every run that does not begin again over an ended list, executing all lists sent or pending does exactly what was asked for, in order, each draw in the framebuffer that was current when its list was opened |
| Effects.EffectsStep | src/vkg/Chain.cpp:353-420 | one event adds exactly the effects it asks for |
| Effects.FilledEffects | src/vkg/Chain.cpp:514-550 | filling an image moves it to a transfer target, copies, and moves it back unless its layout was undefined |
| Effects.FirstDraw | src/vkg/Chain.cpp:585-602 | one draw on a fresh chain, submitted, draws once |
| Chains.Chain.Begin | src/vkg/Chain.cpp:353-361 | opens the list inside the render pass if there is one |
| Chains.Chain.EndWindow | src/vkg/Chain.cpp:665-671 | exactly the slots of the window are ended, each closing the pass it started |
| Chains.Chain.End | src/vkg/Chain.cpp:659-676 | closes the list; no slot is left recording |
| Chains.Chain.Submit | src/vkg/Chain.cpp:329-345 | dirty: exactly one submission, from the current slot, and the ring moves by one; clean: none and it stays |
| Chains.Chain.RingOrderKept | src/vkg/Queue.cpp:155-174 | after one more submission, submission n still sits in slot (start + n) mod 4 and only the last four own fences |
| Chains.Chain.SetMode | src/vkg/Chain.cpp:318-322 | changes the window and nothing a client can see |
| Chains.Chain.Transition | src/vkg/Chain.cpp:266-316 | records one barrier from the layout the image reports to the new one; the new layout is remembered if and only if it is not DepthStencil, and a move to Undefined records nothing and changes nothing |
| Chains.Chain.CopyToImage | src/vkg/Chain.cpp:514-550 | transition, fill, transition back, in this order; the layout is restored if and only if it was neither Undefined nor DepthStencil, and otherwise the image is left as a transfer target |
| Chains.Chain.CopyImages | src/vkg/Chain.cpp:363-394 | copies between images in the layouts the two report |
| Layouts.ConversionsInverse | src/vkg/Vulkan.cpp:537-569 | the two layout conversions undo each other on every layout but depth-stencil |
| Layouts.LayoutNames | src/vkg/Vulkan.cpp:555-569 | which Vulkan layout each layout of the library stands for |
| Layouts.TransitionRemembered | src/vkg/Chain.cpp:301-315 | a transition that records a barrier is remembered if and only if its target is not DepthStencil |
| Layouts.DepthStencilForgotten | src/vkg/Vulkan.cpp:550 | counterexample: an image moved to DepthStencil is remembered as Undefined |
| Layouts.FillRestores | src/vkg/Chain.cpp:520-549 | a filled image gets its layout back if and only if it was neither Undefined nor DepthStencil |
| Layouts.FillLosesLayout | src/vkg/Image.cpp:408-411 | counterexamples: an undefined and a depth-stencil image are left as transfer targets |
| Chains.Chain.Reinitialize | src/vkg/Chain.cpp:215-254 | the reallocated chain satisfies its invariant if and only if it was clean; if it was dirty, its current slot may not be submitted |
| CommandList.GoodRun | src/vkg/Chain.cpp:100-134 | in every run each list sent is plain or one render pass, begun first and ended last |
| CommandList.GoodStep | src/vkg/CommandBuffer.cpp:519-533 | each event keeps that, under any change of the render pass by others |
| CommandList.ExactlyOnce | src/vkg/Chain.cpp:329-345 | over any run, commands sent or pending are the earlier ones followed by the ones asked for, in order, if and only if recording never restarts over an ended list |
| CommandList.NeverMore | src/vkg/Chain.cpp:329-345 | in any run at all, the commands sent or pending are a subsequence of the earlier ones followed by the ones asked for: nothing is sent twice, out of order or made up |
| CommandList.SubsequencePositions | src/vkg/Chain.cpp:329-345 | what NeverMore means: every command sent or pending has its own place among those asked for, in increasing order |
| CommandList.KeptStep | src/vkg/Chain.cpp:353-361 | one event keeps everything unless it discards, and then it loses exactly the ended list |
| CommandList.EndedListLost | src/vkg/CommandBuffer.cpp:497-512 | counterexample: operation, end, begin, submit sends one empty list |
| CommandList.SubmitExactlyWhenDirty | src/vkg/Chain.cpp:333-341 | a submission sends one list when dirty and none otherwise; the has_record guard never decides; submitting again sends nothing |
| CommandList.ModesInvisible | src/vkg/Chain.cpp:318-322 | a run without its mode changes is legal and ends in the same state |
| CommandList.FramebuffersInTurn | src/vkg/Chain.cpp:340 | over any run from an idle state in which only this chain moves the render pass, list n that opens the pass draws into framebuffer (start + n) mod 3 |
| CommandBuffers.CommandBuffer.constructor | src/vkg/CommandBuffer.cpp:263-308 | fresh buffers with signaled fences satisfy the fence discipline |
| CommandBuffers.CommandBuffer.ReclaimFence | src/vkg/CommandBuffer.cpp:481-486 | the wait is on a fence that will be signaled; afterwards the fence is free and the buffer idle |
| CommandBuffers.CommandBuffer.Record | src/vkg/CommandBuffer.cpp:497-512 | the current slot begins empty, never while recording or pending; every other slot is unchanged |
| CommandBuffers.CommandBuffer.RecordPass | src/vkg/CommandBuffer.cpp:465-495 | the same with the render pass begun on the given framebuffer |
| CommandBuffers.CommandBuffer.Append | src/vkg/CommandBuffer.cpp:187-214 | commands are added to the current slot in order and nowhere else |
| CommandBuffers.CommandBuffer.Stop | src/vkg/CommandBuffer.cpp:519-533 | the pass is ended if and only if this slot started one, and the buffer becomes executable |
| CommandBuffers.CommandBuffer.Advance | src/vkg/CommandBuffer.cpp:337-341 | the index moves round the ring and the fence discipline is kept |
| CommandBuffers.CommandBuffer.SetActive | src/vkg/CommandBuffer.cpp:514-517 | selects a slot of the ring and ignores any other index |
| CommandBuffers.CommandBuffer.OthersKept | src/vkg/CommandBuffer.cpp:331-335 | a call that works on one slot leaves the fence discipline of all others and of all pending work intact |
| CommandBuffers.Queue.Submit | src/vkg/Queue.cpp:155-174 | submits exactly the current buffer with its unsignaled fence, marks it, and moves by one, keeping the fence discipline |
| Framebuffers.FramebufferRing.Make | src/vkg/RenderPass.cpp:98-107 | an initialized pass has three framebuffers and its index is in range |
| Framebuffers.FramebufferRing.Advance | src/vkg/RenderPass.cpp:214-218 | the index stays in range in every state |
| RenderPasses.RenderPass.Open | src/vkg/RenderPass.cpp:180-196 | opening a window establishes the protocol, with one image outstanding if and only if the driver's first answer is good |
| RenderPasses.RenderPass.Present | src/vkg/RenderPass.cpp:227-260 | one image is consumed and the protocol kept; from the driver's answers alone it follows, in both directions, whether the pass was made again, how many acquires were made, whether one image is outstanding, and whether presenting is off |
| RenderPasses.RenderPass.PresentFrames | src/vkg/RenderPass.cpp:227-260 | any run of frames keeps the protocol and consumes one image per frame, until an acquire after a recreation fails |
| RenderPasses.NothingToSubmit | src/vkg/Swapchain.cpp:291 | between frames the queue is empty if and only if the last acquire failed; the next submission would then read an empty queue |
| RenderPasses.LoseImage | src/vkg/RenderPass.cpp:245-256 | counterexample: a driver that fails the acquire of the first frame and the one of its rebuild |
| RenderPasses.SuboptimalDiscarded | src/vkg/Swapchain.cpp:273-280 | a driver whose second answer is a suboptimal image: it is not queued, presenting is off, and the pass is made again with the next image |
| RenderPasses.Unpaired | src/vkg/Swapchain.cpp:293-313 | counterexample: a driver that hands out image 1 to frame 0; the present does not wait for the semaphore of its image |
| Histories.DrivenNext | src/vkg/Swapchain.cpp:273-284 | over all answers, exactly the images of plainly successful acquires are handed out, and presenting is off if and only if some answer was suboptimal or out of date |
| RenderPasses.RenderPass.SubmitFrame | src/vkg/Swapchain.cpp:289-316 | the outstanding image leaves the queue; order, generation and pairing of all presents are kept; the swapchain is made again if and only if presenting is on and the driver says so |
| RenderPasses.RenderPass.AcquireFrame | src/vkg/Swapchain.cpp:260-287 | if and only if the driver's answer is good its image becomes outstanding; otherwise presenting is off for good, and presents stop at the first such acquire |
| RenderPasses.RenderPass.Rebuild | src/vkg/RenderPass.cpp:235-242 | a recreation keeps the protocol, starts at framebuffer 0 and has an image outstanding if and only if the driver's next answer is good |
| RenderPasses.PresentsWait | src/vkg/Swapchain.cpp:293-313 | in every run, every semaphore a present waits for has a pending signal; and each present waits for exactly the semaphore of its own image if and only if every image index equaled its frame slot |
| RenderPasses.WaitList | src/vkg/Swapchain.cpp:282-313 | in every state of every run, a slot waits for the semaphores of the acquires that used it since an image of its number was last taken off the queue, in order, all of them pending |
| RenderPasses.MatchedWaitList | src/vkg/Swapchain.cpp:282-285 | in a matched run only the frame of the outstanding image waits, for its one semaphore, and every list is empty before its acquire |
| RenderPasses.SemaphoreFree | src/vkg/Swapchain.cpp:260-316 | in every state of every run: an acquire was given a semaphore with no signal pending if and only if no earlier acquire of the same slot of the same swapchain had armed it without a present waiting on that slot since |
| RenderPasses.SemaphoreReused | src/vkg/Swapchain.cpp:273-313 | counterexample: one failed acquire with three images and every image in its slot; the fifth image is acquired with a semaphore still pending |
| RenderPasses.MatchedRunFree | src/vkg/Swapchain.cpp:271 | in a matched run without failed acquires every semaphore was free |
| WaitStates.FairConsumed | src/vkg/Swapchain.cpp:289-316 | consuming an image, presented or not, keeps the tie between pending signals, wait lists and the history |
| WaitStates.FairHanded | src/vkg/Swapchain.cpp:260-287 | so does handing out an image |
| WaitStates.FairRenewed | src/vkg/Swapchain.cpp:239-258 | so does making the swapchain again, with new semaphores and old wait lists |
| RenderPasses.WaitsOnce | src/vkg/Swapchain.cpp:282-313 | a present waits for no semaphore twice if and only if the acquires that filled its list were all given free semaphores |
| RenderPasses.WaitsTwice | src/vkg/Swapchain.cpp:293-313 | counterexample: image 1 four times and then image 0; the fifth present waits for one semaphore twice |
| Histories.OnceExactly | src/vkg/Synchronization.cpp:142-150 | the same law of any history |
| Histories.UnpresentedBusy | src/vkg/Swapchain.cpp:306-313 | once presenting is off, a slot used since is never free when it comes round again |
| Histories.BusyPresented | src/vkg/Swapchain.cpp:293-313 | one more present disarms the slot with the number of the image and no other |
| Histories.RotatingHanded | src/vkg/Swapchain.cpp:284 | with a constant number of images the slots are used in turn, across failures and recreations |
| RenderLoops.RenderLoop | src/vkg/RenderPass.cpp:214-260 | over any run of draw, submit and present: which frames make the pass again is what the driver's answers say; frame n sends one list, which draws into the framebuffer numbered by the frames since the last recreation mod 3, of a ring that changes only with a recreation; it takes the next image handed out; and all frames show what they drew if and only if every image is that number |
| RenderLoops.RenderWindow | src/vkg/RenderPass.cpp:180-260 | the same from the opening of a window: everything follows from the driver's answers, and the loop stops short if and only if an acquire left nothing outstanding |
| RenderLoops.RenderFrame | src/vkg/Chain.cpp:329-341 | one frame: one list into the current framebuffer, one image consumed, both rings moved or reset |
| RenderLoops.ShownIsPresented | src/vkg/Swapchain.cpp:293-304 | while presenting is on, the image of a frame is the one presented for it |
| RenderLoops.RightWithThreeImages | src/vkg/RenderPass.cpp:116-121 | with three images in the order of the slots, frame n of a window is right if and only if the last recreation the driver's answers caused before it came after a multiple of three frames |
| RenderLoops.SinceOpening | src/vkg/RenderPass.cpp:227-260 | no recreation precedes frame n of a window if and only if no earlier frame's answers report a changed surface |
| RenderLoops.WrongAfterRecreation | src/vkg/RenderPass.cpp:241 | counterexample: after a recreation the second frame draws into framebuffer 0 and presents image 1 |
| Swapchains.Swapchain.Initialize | src/vkg/Swapchain.cpp:239-258 | new fences and semaphores for every frame, distinct and idle; frame counter, queue, skip flag and wait lists stay |
| Swapchains.Swapchain.TakeFence | src/vkg/Swapchain.cpp:262-270 | the blocking wait is on a fence of an earlier successful acquire; afterwards the frame's fence is unsignaled and unused |
| Swapchains.Swapchain.AskDriver | src/vkg/Swapchain.cpp:262-271 | the driver is given an unsignaled fence nobody uses; all other frames keep theirs |
| Swapchains.Swapchain.Remember | src/vkg/Swapchain.cpp:282-286 | image queued, fence remembered, semaphore added to the frame's wait list, counter moved in range; no image is lost |
| Swapchains.Swapchain.Acquire | src/vkg/Swapchain.cpp:260-287 | the swapchain is made again if and only if the answer is suboptimal or out of date, and an image is queued if and only if it is neither; the whole new state in both outcomes, with fence discipline and conservation of images |
| Swapchains.Swapchain.Submit | src/vkg/Swapchain.cpp:289-316 | the oldest image is consumed; it is presented, waiting on its slot's list, unless presenting is off; that list is then empty |
| Swapchains.Synchronization.WaitOn | src/vkg/Synchronization.cpp:142-150 | all signals of the other are appended to the wait lists, also when the other is itself |
| Subpasses.PassLayout.AddSubpass | src/vkg/RenderPass.cpp:321-405 | attachments, clear values and references stay equally long; reference k names attachment k; color and depth references partition them; the color slices tile; the depth pointer is right if and only if, for a subpass with depth, there is no depth attachment yet and, for one without, there never was one; earlier dependencies stay, and at most one is added, from this subpass to the last one named below the number of dependencies, or to 0 |
| Subpasses.LastNamedRecorded | src/vkg/RenderPass.cpp:389-401 | the last subpass named is recorded if and only if it is below the number of dependencies so far, or 0 |
| Subpasses.DependencyMisdirected | src/vkg/RenderPass.cpp:392-395 | counterexample: the third subpass depends on the second and is recorded to depend on the first |
| Subpasses.SecondDepthShared | src/vkg/RenderPass.cpp:384-387 | counterexample: the second of two subpasses with depth points to the depth attachment of the first |
| Subpasses.DepthNotAskedFor | src/vkg/RenderPass.cpp:384-387 | counterexample: a subpass without depth after one with depth points to its depth attachment |
| Subpasses.StaleDepth | src/vkg/RenderPass.cpp:272-300 | counterexample: after a reset a subpass without depth keeps a pointer into the emptied list |
| Subpasses.PassLayout.Reset | src/vkg/RenderPass.cpp:291-299 | all lists are empty and agree; that the depth list has storage is not forgotten |
| Subpasses.PassLayout.AddColors | src/vkg/RenderPass.cpp:359-377 | the loop keeps all lists in step and names the new attachments in order |
| Subpasses.PassLayout.AddDepth | src/vkg/RenderPass.cpp:337-357 | a depth attachment is cleared as one and named by one depth reference |
| Subpasses.PassLayout.MakeDependency | src/vkg/RenderPass.cpp:389-401 | of several dependencies the last one that exists wins, all in one record |
| Subpasses.SliceOwner | src/vkg/RenderPass.cpp:379-382 | every color reference belongs to the slice of exactly one subpass |
| Codec.StringEncoded | src/loaders/NyxFile.cpp:142-152 | reading an encoded string gives it back and leaves any suffix untouched |
| Codec.StringParsed | src/loaders/NyxFile.cpp:142-152 | whatever reads as a string is the encoding of that string |
| Codec.WordEncoded | src/loaders/NyxFile.cpp:154-160 | the same for 32-bit little-endian words |
| Codec.WordParsed | src/loaders/NyxFile.cpp:154-160 | only the encoding of a word reads as that word |
| Codec.WordBytes | src/loaders/NyxFile.cpp:154-160 | the four bytes of a word, lowest first |
| Codec.StringReadAt | src/loaders/NyxFile.cpp:142-152 | where a string ends and what it is, in terms of byte positions |
| Codec.ManyEncoded | src/loaders/NyxFile.cpp:342-355 | for any element format, a loop of n reads undoes n encodings |
| Codec.ManyParsed | src/loaders/NyxFile.cpp:342-355 | for any element format, n successful reads have consumed exactly n encodings |
| Codec.PrefixFree | src/loaders/NyxFile.cpp:320-402 | a format with a left inverse is prefix-free and injective |
| Streams.ByteStream.ReadString | src/loaders/NyxFile.cpp:142-152 | the stream consumes exactly one encoded string, or fails |
| NyxFiles.RoundTrip | src/loaders/NyxFile.cpp:320-402 | the parser undoes every encoding of a file, ignores any suffix, and accepts nothing else |
| NyxFiles.HeaderRead | src/loaders/NyxFile.cpp:334-340 | the magic bytes, and the version and the three counts at their positions |
| NyxFiles.AttributeRead | src/loaders/NyxFile.cpp:344-347 | name, type, size and location of an input at their positions |
| NyxFiles.UniformRead | src/loaders/NyxFile.cpp:388-391 | name, type, binding and size of a uniform at their positions |
| NyxFiles.ShaderRead | src/loaders/NyxFile.cpp:374-377 | code words, stage and number of uniforms at their positions |
| NyxFiles.EncodingsDiffer | src/loaders/NyxFile.cpp:320-402 | different files have different encodings, none a prefix of another |
| NyxFiles.NyxFile.Load | src/loaders/NyxFile.cpp:320-402 | loading computes the parser; inputs and outputs are appended to earlier ones, the shader map is replaced; a wrong magic number only empties the map |
| NyxFiles.LoadEncoding | src/loaders/NyxFile.cpp:320-402 | a fresh object that loads the encoding of a file with distinct stages holds exactly that file |
| NyxFiles.NyxFile.ReadShaders | src/loaders/NyxFile.cpp:372-401 | the loop reads the shaders in sequence and keeps the first of each stage |
| NyxFiles.FirstPerStage | src/loaders/NyxFile.cpp:400 | every stage of the file is in the map, with its first shader |
| NyxFiles.OnlyFileStages | src/loaders/NyxFile.cpp:400 | the map has a stage if and only if the file has |
| NyxFiles.ReadShader | src/loaders/NyxFile.cpp:374-399 | one shader is read exactly as it was laid out |
| NssFiles.RoundTrip | src/loaders/NssFile.cpp:459-503 | the parser is the exact inverse of the skeleton layout |
| NssFiles.NssFile.Load | src/loaders/NssFile.cpp:459-503 | loading computes the parser and resolves all links; wrong magic fails, another version succeeds empty |
| NssFiles.LoadEncoding | src/loaders/NssFile.cpp:459-503 | an encoded skeleton followed by anything is loaded back with its links |
| NssFiles.FindBones | src/loaders/NssFile.cpp:241-257 | for arbitrary bones and names, repeated or dangling: the three loops append to the children of every bone exactly one for each pair of a child name and a bone that carries it, name after name and in the order of the bones, and clear the names |
| NssFiles.LinksResolved | src/loaders/NssFile.cpp:241-257 | the links are all matches of all names, in order, each once |
| NssFiles.ResolvedOnce | src/loaders/NssFile.cpp:241-257 | only one list of children is resolved for given bones and names |
| NssFiles.ChildrenResolved | src/loaders/NssFile.cpp:459-503 | so are the children of every bone of every loaded skeleton |
| NssFiles.BothBonesLinked | src/loaders/NssFile.cpp:247-253 | two bones of one name are both linked |
| NssFiles.HeaderRead | src/loaders/NssFile.cpp:467-481 | the magic bytes, version 1, and root and counts at their positions |
| NssFiles.BoneRead | src/loaders/NssFile.cpp:187-202 | a bone is seventeen strings, a count and that many names |
| NssFiles.TransformRead | src/loaders/NssFile.cpp:230-236 | time, position, scale and rotation among thirteen strings |
| NssFiles.AnimationRead | src/loaders/NssFile.cpp:204-210 | name, duration and frame rate of an animation |
| NssFiles.NamedExactly | src/loaders/NssFile.cpp:247-253 | the matches of a name are exactly the bones that carry it, as often as they occur |
| NssFiles.NamedInOrder | src/loaders/NssFile.cpp:247-253 | matches stand in the order of the bone list |
| NssFiles.PositionsComplete | src/loaders/NssFile.cpp:247-253 | no bone of the name is left out |
| NssFiles.LinksCount | src/loaders/NssFile.cpp:241-257 | with unique names a bone gets one child per name if and only if no name dangles |
| NssFiles.LinksUnique | src/loaders/NssFile.cpp:241-257 | then child k is the bone with the k-th name |
| NssFiles.ChildrenFound | src/loaders/NssFile.cpp:459-503 | in a loaded sound skeleton child k of bone i carries the k-th stored name of bone i |
| NssFiles.ReadAnimation | src/loaders/NssFile.cpp:204-220 | the nested loops read exactly one animation |
| OrderedMaps.LessExactly | src/vkg/NyxShader.cpp:266 | the order of the map: the first byte in which two names differ decides, or the end of the first |
| OrderedMaps.CStringLongest | src/vkg/NyxShader.cpp:298 | a C string is the longest part without zero bytes a name begins with |
| OrderedMaps.PutSorted | src/vkg/NyxShader.cpp:311 | setting a key keeps the map ordered and adds at most one entry |
| OrderedMaps.PutGet | src/vkg/NyxShader.cpp:298-311 | setting a key changes what is found for it and for no other |
| ShaderReflection.NyxShaderData.Parse | src/vkg/NyxShader.cpp:264-332 | the loops produce the layout and the merge that the laws below speak of |
| ShaderReflection.NyxShaderData.ParseInputs | src/vkg/NyxShader.cpp:276-293 | from the bytes of the type names: n attributes for a square matrix of side n, of 12 bytes each for n = 2, 3 and 16 for n = 4, and one of the stored size for anything else; every attribute has the location of its input and starts behind all before it, modulo 2^32, and so does the stride |
| ShaderReflection.InputShape | src/vkg/NyxShader.cpp:130-149 | the comparisons with three names count columns and bytes as the bytes of the name say |
| ShaderReflection.OneMatrix | src/vkg/NyxShader.cpp:279-293 | a single "mat4" takes four attributes at 0, 16, 32 and 48 and a stride of 64 |
| ShaderReflection.ColumnCount | src/vkg/NyxShader.cpp:279-293 | as many attributes as the sum of the columns, and a stride of the sum of columns times sizes |
| ShaderReflection.DescribeAt | src/vkg/NyxShader.cpp:285-291 | attribute k sits at the prefix sum of the sizes before it |
| ShaderReflection.ByteOwner | src/vkg/NyxShader.cpp:140-149 | every byte of the vertex lies in exactly one column: no gap, no overlap |
| ShaderReflection.OffsetsExact | src/vkg/NyxShader.cpp:288-291 | the 32-bit stride is true if and only if the vertex is below 2^32 bytes, and then all offsets are |
| ShaderReflection.MergeExact | src/vkg/NyxShader.cpp:294-330 | exactly one entry per distinct name, in name order, with binding, count and, if known, type of the first declaration and an exactly described stage mask |
| ShaderReflection.NumberedStages | src/vkg/NyxShader.cpp:188-211 | which stage and which descriptor type each number of a file stands for |
| ShaderReflection.MaskExact | src/vkg/NyxShader.cpp:300-308 | the mask is the set of declaring stages if and only if every stage that introduced a name so far declares this one |
| ShaderReflection.MaskBetween | src/vkg/NyxShader.cpp:300-308 | it always holds the declaring stages and only stages with uniforms |
| ShaderReflection.MaskTooWide | src/vkg/NyxShader.cpp:308 | counterexample: a fragment-only uniform announced to the vertex stage |
| ShaderReflection.PoolKeepsLast | src/vkg/Descriptor.cpp:295-301 | a pool, also one initialized before, knows exactly the names it knew and the declared ones, each of the latter with its last declaration |
| ShaderReflection.LayoutPoolAgree | src/vkg/Descriptor.cpp:287-309 | for any earlier contents of the pool: a name is accepted but not in the layout if and only if it was known before and is not declared; on declared names layout and pool agree if and only if first and last declaration do |
| ShaderReflection.AcceptedExactly | src/vkg/Descriptor.cpp:287-301 | every accepted name is in the layout if and only if the file declares every name the pool knew before |
| ShaderReflection.StaleName | src/vkg/Descriptor.cpp:295-301 | counterexample: a pool initialized for two files accepts a name the second layout does not have |
| ShaderReflection.PoolDiffers | src/vkg/Descriptor.cpp:295-301 | counterexample: one name with two bindings in two stages; layout and pool differ |
| ShaderReflection.AcceptedNamesAreBound | src/vkg/Descriptor.cpp:182-206 | in a consistent file every accepted name of the file is written to a binding of the layout, the one made for it, whatever the pool knew before |
| ShaderReflection.DescriptorPool.Initialize | src/vkg/Descriptor.cpp:287-301 | the loops enter all uniforms, later ones replacing earlier ones |
| EventRuns.RunCalls | src/event/Event.cpp:175-314 | after any interleaving of calls by any number of managers each registry holds exactly the enrollments of the living managers that found their key free, each in the list of its manager; with none alive nothing is left |
| EventRuns.OneOwner | src/event/Event.cpp:248-252 | in each of the three registries every entry was enrolled by exactly one manager, once, and no other entry has its key |
| EventRuns.RecordsAfter | src/event/Event.cpp:204-261 | an enrollment extends the list of its manager if its key is free, and otherwise changes nothing |
| EventRuns.RecordsLeft | src/event/Event.cpp:295-314 | removing a manager removes exactly its list and leaves the others as they were |
| EventRuns.RecordsTaken | src/event/Event.cpp:248-251 | a key is found in the registry if and only if some living manager enrolled it |
| EventRuns.Program | src/event/Event.cpp:175-314 | a program that makes the registries and then runs any calls; the hypotheses of RunCalls are met |
| Events.Registry.Enroll | src/event/Event.cpp:204-252 | a subscriber is added if and only if its key is free; one entry per key and one owner per entry are kept |
| Events.Registry.EraseAll | src/event/Event.cpp:295-314 | every iterator is valid when it is erased, and exactly the listed entries go |
| Events.Registry.Reset | src/event/Event.cpp:295-314 | the manager stays usable if and only if it had enrolled nothing |
| Events.EventManager.Destroy | src/event/Event.cpp:180-184 | exactly the manager's entries are removed from all three registries |
| Events.EventManager.PushEvent | src/event/Event.cpp:186-202 | every global subscriber once, at most one of the key and at most one of the type |
| StagingPool.Pool.FindStaging | src/vkg/Chain.cpp:136-167 | returns the free buffer with the lowest number, or a new one, at most four, which nobody else holds; it is the one the turns of the search come to, and the loop terminates |
| StagingPool.FullPoolSpins | src/vkg/Chain.cpp:149-164 | with four held buffers the search visits them in turn for ever |
| StagingPool.SearchEnds | src/vkg/Chain.cpp:149-164 | the search comes to an end if and only if a buffer is free or the pool may grow |
| StagingPool.SearchOutcome | src/vkg/Chain.cpp:141-164 | the turns of the search come to the lowest free buffer or to a new one |
| StagingPool.RunCalls | src/vkg/Chain.cpp:90-167 | over any interleaving of searches and releases, what is locked and who holds it is the stated function of the calls; at most four buffers, locked if and only if held, and nobody shares one |

## Left out

- RenderLoops.RenderLoop: a frame is one draw in one list; a client that submits several lists per frame, or none, moves the framebuffer ring accordingly.
- StagingPool.Pool.FindStaging: requires a free buffer or room for one, because otherwise the loop waits for another thread; FullPoolSpins says what it does then.
- NyxFiles.LoadEncoding: starts from an object without inputs and outputs, because earlier ones are kept; NyxFile.Load states the general case.
- Streams.ByteStream.ReadString: after a truncated stream the value is arbitrary, as the code leaves it undefined.
- Real Vulkan and SDL calls, instance and device set-up, errors other than a changed surface, and loss of the device; the driver and the presentation engine stand in for them.
- The image count is assumed not to shrink when the swapchain is made again; the frame counter is not reset there, so fewer images could put it out of range.
- Secondary chains, `combine` and the parent guard: the chains here are primary.
- The public `Chain::advance`, which moves only one of the two ring indices, and `setMode` or `reset` during recording.
- Chains.RunProgram: does not model which commands a render pass allows, nor that making a pass again destroys framebuffers a recorded list may use; the code checks neither.
- The cached barrier tables that are cleared on submit.
- Mutexes and threads: calls are atomic.
- Staging buffer contents, and how long they stay untouched after unlocking.
- Images behind the framebuffers: the index `attach * index` is not injective.
- The format change of the last attachment when a window is opened, and stability of the pointers into the reference lists when these grow; the list of depth references is taken to have no storage before its first element.
- Vertex formats, locations of matrix columns, descriptor types of input images, the SPIR-V module infos.
- The order in which shaders are visited: the reflection laws hold for any order.
- Floating-point values: the decimal strings of a skeleton are kept as text.
- The bulk read of SPIR-V is modelled word by word.
- The order in which global subscribers run, handlers that call back into the manager, and callbacks leaked when an enrollment is refused.
- The `.ngg`, `.ngt` and `.ntt` loaders: the decoder laws hold for any element format, and these files would repeat them with less structure.
- Library facades, enumeration switches, getters and setters.
