/** Drawing and presenting together: a chain draws into the framebuffers of a window's render
    pass, and each frame is presented with the image that is outstanding.  Framebuffer k
    shows image k of the swapchain. */
module RenderLoops {
  import opened Wrappers
  import opened Driver
  import opened CommandList
  import opened Effects
  import opened Framebuffers
  import opened Presentation
  import opened Swapchains
  import opened Histories
  import opened RenderPasses
  import opened Chains

  /** The framebuffers there were when a frame was drawn, the number of the one it was drawn
      into, and the image that was taken off the queue for it. */
  datatype Shown = Shown(drawn: nat, ring: seq<nat>, image: nat) {
    predicate Valid() {
      drawn < |ring| == NUM_BUFFERS
    }

    /** The framebuffer it was drawn into. */
    function Handle(): nat
      requires Valid()
    {
      ring[drawn]
    }
  }

  /** The frame presents what it drew. */
  predicate Right(s: Shown) {
    s.drawn == s.image
  }

  /** Frames since the pass was last made again. */
  function Since(recreated: seq<bool>): nat {
    if recreated == [] || recreated[|recreated| - 1] then 0 else 1 + Since(recreated[..|recreated| - 1])
  }

  /** The framebuffer that is next, as the ring counts it. */
  function Turn(recreated: seq<bool>): (r: nat)
    ensures r < NUM_BUFFERS
  {
    if recreated == [] || recreated[|recreated| - 1] then 0 else NextTurn(Turn(recreated[..|recreated| - 1]))
  }

  function NextTurn(i: nat): (r: nat)
    ensures r < NUM_BUFFERS
  {
    if i + 1 >= NUM_BUFFERS then 0 else i + 1
  }

  lemma {:induction false} NextTurnCounts(n: nat)
    ensures NextTurn(n % NUM_BUFFERS) == (n + 1) % NUM_BUFFERS
  {
  }

  lemma {:induction false} TurnIsSince(recreated: seq<bool>)
    ensures Turn(recreated) == Since(recreated) % NUM_BUFFERS
  {
    if recreated != [] && !recreated[|recreated| - 1] {
      TurnIsSince(recreated[..|recreated| - 1]);
      NextTurnCounts(Since(recreated[..|recreated| - 1]));
    }
  }

  /** The list of a frame: one render pass with one draw. */
  function FrameList(handle: nat, op: Operation): seq<Command> {
    [BeginRenderPass(handle)] + op.Commands() + [EndRenderPass]
  }

  /** It does what the operation asks for, in the framebuffer of the frame. */
  lemma {:induction false} FrameExecuted(handle: nat, op: Operation)
    ensures Results(BLANK, FrameList(handle, op)) == Wanted(op, Some(handle), None)
  {
    var inPass := Binds(BLANK, BeginRenderPass(handle));
    assert FrameList(handle, op) == [BeginRenderPass(handle)] + (op.Commands() + [EndRenderPass]);
    TwoCommands(BLANK, BeginRenderPass(handle), op.Commands() + [EndRenderPass]);
    ResultsConcat(inPass, op.Commands(), [EndRenderPass]);
    OperationExecuted(op, inPass);
    OneCommand(BoundAfter(inPass, op.Commands()), EndRenderPass);
  }

  predicate FrameSent(log: seq<Command>, handle: nat, op: Operation) {
    log == FrameList(handle, op) && Results(BLANK, log) == Wanted(op, Some(handle), None)
  }

  /** Nothing is recorded or waiting to be sent. */
  ghost predicate Idle(chain: Chain, pass: RenderPass)
    reads chain, chain.cmd, chain.cmd.device, chain.pass
    reads pass, pass.swapchain, pass.engine, pass.swapchain.syncs, pass.frames
  {
    && chain.Valid() && pass.Valid() && chain.pass == pass.frames
    && !chain.cmd.recording && !chain.dirty
  }

  /** One frame: draw, submit, present. */
  method RenderFrame(chain: Chain, pass: RenderPass, op: Operation) returns (shown: Shown, recreate: bool)
    requires Idle(chain, pass) && pass.swapchain.acquired != [] && op.IsDraw()
    modifies chain, chain.queue, chain.cmd, chain.cmd.device
    modifies pass`stoppedAt, pass`slots, pass.swapchain, pass.engine, pass.swapchain.syncs, pass.frames
    ensures Idle(chain, pass) && chain.cmd.device == old(chain.cmd.device)
    ensures shown.Valid() && shown.drawn == old(pass.frames.current) && shown.ring == old(pass.frames.framebuffers)
    ensures shown.image == old(pass.swapchain.acquired)[0]
    ensures chain.View().sent == old(chain.View().sent) + [FrameList(shown.Handle(), op)]
    ensures pass.frames.current == if recreate then 0 else NextTurn(shown.drawn)
    ensures recreate <==> old(pass.Now()).Changes(pass.engine.oracle)
    ensures pass.Now() == old(pass.Now()).Next(pass.engine.oracle)
    ensures !recreate ==> pass.frames.framebuffers == old(pass.frames.framebuffers)
    ensures |old(pass.swapchain.syncs)| <= |pass.swapchain.syncs| && pass.SyncsKept()
    ensures pass.swapchain.consumed == old(pass.swapchain.consumed) + 1
    ensures |old(pass.swapchain.handed)| <= |pass.swapchain.handed|
    ensures pass.swapchain.handed[..|old(pass.swapchain.handed)|] == old(pass.swapchain.handed)
  {
    NextOfThree(pass.frames.View());
    shown := Shown(pass.frames.current, pass.frames.framebuffers, pass.swapchain.acquired[0]);
    Draw(chain, pass, op);
    recreate := PresentDrawn(chain, pass);
  }

  /** The drawing half leaves the swapchain alone. */
  method Draw(chain: Chain, pass: RenderPass, op: Operation)
    requires Idle(chain, pass) && op.IsDraw()
    modifies chain, chain.queue, chain.cmd, chain.cmd.device, pass.frames
    ensures Idle(chain, pass) && chain.cmd.device == old(chain.cmd.device)
    ensures pass.frames.current == NextTurn(old(pass.frames.current))
    ensures pass.frames.framebuffers == old(pass.frames.framebuffers)
    ensures chain.View().sent ==
      old(chain.View().sent) + [FrameList(old(pass.frames.CurrentFramebuffer()), op)]
  {
    NextOfThree(pass.frames.View());
    DrawAndSubmit(chain, op);
  }

  lemma {:induction false} NextOfThree(v: PassView)
    requires v.Valid() && v.initialized
    ensures v.current < |v.framebuffers| == NUM_BUFFERS
    ensures v.Advanced().current == NextTurn(v.current)
  {
  }

  /** The drawing half: one list is sent, which draws into the current framebuffer, and the
      framebuffer ring moves on. */
  method DrawAndSubmit(chain: Chain, op: Operation)
    requires chain.Valid() && chain.pass != null && chain.pass.initialized && op.IsDraw()
    requires !chain.cmd.recording && !chain.dirty
    modifies chain, chain.queue, chain.cmd, chain.cmd.device, chain.pass
    ensures chain.Valid() && chain.pass == old(chain.pass) && chain.cmd.device == old(chain.cmd.device)
    ensures !chain.cmd.recording && !chain.dirty
    ensures chain.pass.View() == old(chain.pass.View()).Advanced()
    ensures chain.View().sent ==
      old(chain.View().sent) + [FrameList(old(chain.pass.CurrentFramebuffer()), op)]
  {
    CommandsArePlain(op);
    chain.Perform(op);
    chain.Submit();
  }

  /** The presenting half leaves the chain alone. */
  method PresentDrawn(chain: Chain, pass: RenderPass) returns (recreate: bool)
    requires Idle(chain, pass) && pass.swapchain.acquired != []
    modifies pass`stoppedAt, pass`slots, pass.swapchain, pass.engine, pass.swapchain.syncs, pass.frames
    ensures Idle(chain, pass) && chain.View().sent == old(chain.View().sent)
    ensures pass.frames.current == if recreate then 0 else old(pass.frames.current)
    ensures recreate <==> old(pass.Now()).Changes(pass.engine.oracle)
    ensures pass.Now() == old(pass.Now()).Next(pass.engine.oracle)
    ensures !recreate ==> pass.frames.framebuffers == old(pass.frames.framebuffers)
    ensures |old(pass.swapchain.syncs)| <= |pass.swapchain.syncs| && pass.SyncsKept()
    ensures pass.swapchain.consumed == old(pass.swapchain.consumed) + 1
    ensures |old(pass.swapchain.handed)| <= |pass.swapchain.handed|
    ensures pass.swapchain.handed[..|old(pass.swapchain.handed)|] == old(pass.swapchain.handed)
  {
    recreate := pass.Present();
    chain.PassMoved();
  }

  lemma {:induction false} SinceBound(recreated: seq<bool>)
    ensures Since(recreated) <= |recreated|
  {
    if recreated != [] && !recreated[|recreated| - 1] {
      SinceBound(recreated[..|recreated| - 1]);
    }
  }

  /** What a run has drawn: frame n into the framebuffer that counts the frames since the last
      recreation before it. */
  ghost predicate DrawnInTurn(shown: seq<Shown>, recreated: seq<bool>) {
    && |shown| == |recreated|
    && forall n | 0 <= n < |shown| :: shown[n].drawn == Turn(recreated[..n])
  }

  /** What a run has sent: one list per frame, drawing into the framebuffer of the frame. */
  ghost predicate SentInTurn(sent: seq<seq<Command>>, before: nat, shown: seq<Shown>, ops: seq<Operation>) {
    && |sent| == before + |shown| && |shown| <= |ops|
    && forall n | 0 <= n < |shown| ::
         && shown[n].Valid()
         && FrameSent(sent[before + n], shown[n].Handle(), ops[n])
  }

  /** What a run has taken off the queue: the images handed out, in order. */
  ghost predicate TakenInTurn(hs: seq<Handed>, before: nat, shown: seq<Shown>) {
    && before + |shown| <= |hs|
    && forall n | 0 <= n < |shown| :: shown[n].image == hs[before + n].image
  }

  lemma {:induction false} DrawnNext(shown: seq<Shown>, recreated: seq<bool>, s: Shown, recreate: bool)
    requires DrawnInTurn(shown, recreated) && s.drawn == Turn(recreated)
    ensures DrawnInTurn(shown + [s], recreated + [recreate])
    ensures Turn(recreated + [recreate]) == if recreate then 0 else NextTurn(s.drawn)
  {
    var more, after := shown + [s], recreated + [recreate];
    assert after[..|recreated|] == recreated;
    forall n | 0 <= n < |more| ensures more[n].drawn == Turn(after[..n]) {
      assert n < |shown| ==> after[..n] == recreated[..n];
    }
  }

  lemma {:induction false} SentNext(sent: seq<seq<Command>>, before: nat, shown: seq<Shown>, ops: seq<Operation>, s: Shown)
    requires SentInTurn(sent, before, shown, ops) && |shown| < |ops| && s.Valid()
    ensures SentInTurn(sent + [FrameList(s.Handle(), ops[|shown|])], before, shown + [s], ops)
  {
    var log := FrameList(s.Handle(), ops[|shown|]);
    assert FrameSent(log, s.Handle(), ops[|shown|]) by {
      FrameExecuted(s.Handle(), ops[|shown|]);
    }
    forall n | 0 <= n < |shown + [s]|
      ensures (shown + [s])[n].Valid() && FrameSent((sent + [log])[before + n], (shown + [s])[n].Handle(), ops[n])
    {
      if n < |shown| {
        assert (shown + [s])[n] == shown[n] && (sent + [log])[before + n] == sent[before + n];
      }
    }
  }

  lemma {:induction false} TakenNext(hs: seq<Handed>, before: nat, shown: seq<Shown>, s: Shown, hs': seq<Handed>)
    requires TakenInTurn(hs, before, shown) && before + |shown| < |hs| <= |hs'| && hs'[..|hs|] == hs
    requires s.image == hs[before + |shown|].image
    ensures TakenInTurn(hs', before, shown + [s])
  {
    forall i | 0 <= i < |hs| ensures hs'[i] == hs[i] {
      assert hs'[..|hs|][i] == hs'[i];
    }
  }

  /** The framebuffers stay the same until the pass is made again. */
  ghost predicate RingsKept(shown: seq<Shown>, recreated: seq<bool>, ring: seq<nat>) {
    && |shown| == |recreated|
    && (forall n | 0 <= n < |shown| - 1 && !recreated[n] :: shown[n + 1].ring == shown[n].ring)
    && (shown != [] && !recreated[|shown| - 1] ==> ring == shown[|shown| - 1].ring)
  }

  lemma {:induction false} RingsNext(shown: seq<Shown>, recreated: seq<bool>, ring: seq<nat>, s: Shown, recreate: bool, ring': seq<nat>)
    requires RingsKept(shown, recreated, ring) && s.ring == ring && (!recreate ==> ring' == ring)
    ensures RingsKept(shown + [s], recreated + [recreate], ring')
  {
    var more, after := shown + [s], recreated + [recreate];
    forall n | 0 <= n < |more| - 1 && !after[n] ensures more[n + 1].ring == more[n].ring {
      assert n + 1 == |shown| || more[n + 1] == shown[n + 1];
    }
  }

  /** The recreations are those that the driver's answers cause, and before every frame an
      image was outstanding. */
  ghost predicate Scripted(o: Oracle, start: Script, now: Script, recreated: seq<bool>) {
    && recreated == Recreations(o, start, |recreated|)
    && now == ScriptAt(o, start, |recreated|)
    && ImagesOut(o, start, |recreated|)
  }

  lemma {:induction false} ScriptedNext(o: Oracle, start: Script, now: Script, recreated: seq<bool>, recreate: bool)
    requires Scripted(o, start, now, recreated) && now.ImageOut(o) && (recreate <==> now.Changes(o))
    ensures Scripted(o, start, now.Next(o), recreated + [recreate])
  {
  }

  /** All of it together, with the framebuffer that is next. */
  ghost predicate Progress(sent: seq<seq<Command>>, before: nat, hs: seq<Handed>, base: nat, consumed: nat,
                           frames: PassView, shown: seq<Shown>, recreated: seq<bool>, ops: seq<Operation>)
  {
    && SentInTurn(sent, before, shown, ops) && DrawnInTurn(shown, recreated) && TakenInTurn(hs, base, shown)
    && consumed == base + |shown| && frames.current == Turn(recreated)
    && RingsKept(shown, recreated, frames.framebuffers)
  }

  lemma {:induction false} ProgressStart(sent: seq<seq<Command>>, hs: seq<Handed>, consumed: nat, frames: PassView, ops: seq<Operation>)
    requires consumed <= |hs| && frames.current == 0
    ensures Progress(sent, |sent|, hs, consumed, consumed, frames, [], [], ops)
  {
  }

  /** Every frame shows what it drew. */
  predicate AllRight(shown: seq<Shown>) {
    forall n | 0 <= n < |shown| :: Right(shown[n])
  }

  /** Every image handed out is the number of frames since the last recreation, modulo three. */
  predicate ImagesInTurn(hs: seq<Handed>, before: nat, recreated: seq<bool>)
    requires before + |recreated| <= |hs|
  {
    forall n | 0 <= n < |recreated| :: hs[before + n].image == Since(recreated[..n]) % NUM_BUFFERS
  }

  lemma {:induction false} ProgressNext(sent: seq<seq<Command>>, before: nat, hs: seq<Handed>, base: nat, consumed: nat, frames: PassView,
                     shown: seq<Shown>, recreated: seq<bool>, ops: seq<Operation>, s: Shown, recreate: bool,
                     sent': seq<seq<Command>>, hs': seq<Handed>, frames': PassView)
    requires Progress(sent, before, hs, base, consumed, frames, shown, recreated, ops)
    requires |shown| < |ops| && consumed < |hs| <= |hs'| && hs'[..|hs|] == hs
    requires s.Valid() && s.drawn == frames.current && s.ring == frames.framebuffers && s.image == hs[consumed].image
    requires sent' == sent + [FrameList(s.Handle(), ops[|shown|])]
    requires frames'.current == if recreate then 0 else NextTurn(s.drawn)
    requires !recreate ==> frames'.framebuffers == frames.framebuffers
    ensures Progress(sent', before, hs', base, consumed + 1, frames', shown + [s], recreated + [recreate], ops)
  {
    SentNext(sent, before, shown, ops, s);
    DrawnNext(shown, recreated, s, recreate);
    TakenNext(hs, base, shown, s, hs');
    RingsNext(shown, recreated, frames.framebuffers, s, recreate, frames'.framebuffers);
  }

  /** The render loop, as long as an image is outstanding.  Which frames make the pass again
      follows from the driver's answers.  Frame n sends one list, which draws into the
      framebuffer that counts the frames since the pass was last made again, modulo three, of
      the ring there is at the time, and presents the image handed out for it.  So every
      frame shows what it drew if and only if every image handed out is that number. */
  method RenderLoop(chain: Chain, pass: RenderPass, ops: seq<Operation>)
    returns (shown: seq<Shown>, recreated: seq<bool>)
    requires Idle(chain, pass) && pass.frames.current == 0
    requires forall i | 0 <= i < |ops| :: ops[i].IsDraw()
    modifies chain, chain.queue, chain.cmd, chain.cmd.device
    modifies pass`stoppedAt, pass`slots, pass.swapchain, pass.engine, pass.swapchain.syncs, pass.frames
    ensures Idle(chain, pass)
    ensures |shown| < |ops| ==> !pass.Now().ImageOut(pass.engine.oracle)
    ensures Scripted(pass.engine.oracle, old(pass.Now()), pass.Now(), recreated)
    ensures Progress(chain.View().sent, |old(chain.View().sent)|, pass.swapchain.handed, old(pass.swapchain.consumed),
                     pass.swapchain.consumed, pass.frames.View(), shown, recreated, ops)
    ensures AllRight(shown) <==> ImagesInTurn(pass.swapchain.handed, old(pass.swapchain.consumed), recreated)
  {
    ghost var before, base := |chain.View().sent|, pass.swapchain.consumed;
    ProgressStart(chain.View().sent, pass.swapchain.handed, base, pass.frames.View(), ops);
    shown, recreated := RenderRest(chain, pass, ops, [], [], before, base, pass.Now());
    RightExactly(shown, recreated, pass.swapchain.handed, base);
  }

  /** The loop from some frame on. */
  method RenderRest(chain: Chain, pass: RenderPass, ops: seq<Operation>, shown: seq<Shown>, recreated: seq<bool>,
                    ghost before: nat, ghost base: nat, ghost start: Script)
    returns (shown': seq<Shown>, recreated': seq<bool>)
    requires Idle(chain, pass)
    requires forall i | 0 <= i < |ops| :: ops[i].IsDraw()
    requires Scripted(pass.engine.oracle, start, pass.Now(), recreated)
    requires Progress(chain.View().sent, before, pass.swapchain.handed, base, pass.swapchain.consumed,
                      pass.frames.View(), shown, recreated, ops)
    modifies chain, chain.queue, chain.cmd, chain.cmd.device
    modifies pass`stoppedAt, pass`slots, pass.swapchain, pass.engine, pass.swapchain.syncs, pass.frames
    ensures Idle(chain, pass)
    ensures |shown'| < |ops| ==> !pass.Now().ImageOut(pass.engine.oracle)
    ensures Scripted(pass.engine.oracle, start, pass.Now(), recreated')
    ensures Progress(chain.View().sent, before, pass.swapchain.handed, base, pass.swapchain.consumed,
                     pass.frames.View(), shown', recreated', ops)
    decreases |ops| - |shown|
  {
    LastIsOutstanding(pass);
    if |shown| == |ops| || pass.swapchain.acquired == [] {
      return shown, recreated;
    }
    var s, recreate := RenderNext(chain, pass, ops, shown, recreated, before, base, start);
    shown', recreated' := RenderRest(chain, pass, ops, shown + [s], recreated + [recreate], before, base, start);
  }

  /** One frame of the loop. */
  method RenderNext(chain: Chain, pass: RenderPass, ops: seq<Operation>, shown: seq<Shown>,
                    ghost recreated: seq<bool>, ghost before: nat, ghost base: nat, ghost start: Script)
    returns (s: Shown, recreate: bool)
    requires Idle(chain, pass) && pass.swapchain.acquired != [] && |shown| < |ops| && ops[|shown|].IsDraw()
    requires Scripted(pass.engine.oracle, start, pass.Now(), recreated)
    requires Progress(chain.View().sent, before, pass.swapchain.handed, base, pass.swapchain.consumed,
                      pass.frames.View(), shown, recreated, ops)
    modifies chain, chain.queue, chain.cmd, chain.cmd.device
    modifies pass`stoppedAt, pass`slots, pass.swapchain, pass.engine, pass.swapchain.syncs, pass.frames
    ensures Idle(chain, pass) && chain.cmd.device == old(chain.cmd.device)
    ensures |old(pass.swapchain.syncs)| <= |pass.swapchain.syncs| && pass.SyncsKept()
    ensures Scripted(pass.engine.oracle, start, pass.Now(), recreated + [recreate])
    ensures Progress(chain.View().sent, before, pass.swapchain.handed, base, pass.swapchain.consumed,
                     pass.frames.View(), shown + [s], recreated + [recreate], ops)
  {
    LastIsOutstanding(pass);
    ghost var sent, hs, consumed := chain.View().sent, pass.swapchain.handed, pass.swapchain.consumed;
    ghost var frames, now := pass.frames.View(), pass.Now();
    s, recreate := RenderFrame(chain, pass, ops[|shown|]);
    ProgressNext(sent, before, hs, base, consumed, frames, shown, recreated, ops, s, recreate,
                 chain.View().sent, pass.swapchain.handed, pass.frames.View());
    ScriptedNext(pass.engine.oracle, start, now, recreated, recreate);
  }

  lemma {:induction false} RightExactly(shown: seq<Shown>, recreated: seq<bool>, hs: seq<Handed>, before: nat)
    requires DrawnInTurn(shown, recreated) && TakenInTurn(hs, before, shown)
    ensures AllRight(shown) <==> ImagesInTurn(hs, before, recreated)
  {
    forall n | 0 <= n < |shown|
      ensures Right(shown[n]) <==> hs[before + n].image == Since(recreated[..n]) % NUM_BUFFERS
    {
      TurnIsSince(recreated[..n]);
    }
    if AllRight(shown) {
      forall n | 0 <= n < |recreated| ensures hs[before + n].image == Since(recreated[..n]) % NUM_BUFFERS {
        assert Right(shown[n]);
      }
    }
  }

  /** As long as presenting is on, the image of a frame is the one presented for it. */
  lemma {:induction false} ShownIsPresented(pass: RenderPass, before: nat, shown: seq<Shown>, n: nat)
    requires pass.Valid() && TakenInTurn(pass.swapchain.handed, before, shown)
    requires n < |shown| && before + n < |pass.engine.presents|
    ensures pass.engine.presents[before + n].image == shown[n].image
  {
    assert pass.swapchain.handed[..pass.swapchain.consumed][before + n] == pass.swapchain.handed[before + n];
  }

  /** A window from its opening on: which frames make the pass again, how many frames there
      are, what each sends, and what each presents, all follow from the driver's answers. */
  method RenderWindow(oracle: Oracle, ops: seq<Operation>) returns (chain: Chain, pass: RenderPass, shown: seq<Shown>)
    requires forall i | 0 <= i < |ops| :: ops[i].IsDraw()
    ensures Idle(chain, pass) && pass.engine.oracle == oracle
    ensures Scripted(oracle, Opened(oracle), pass.Now(), Recreations(oracle, Opened(oracle), |shown|))
    ensures |shown| < |ops| ==> !pass.Now().ImageOut(oracle)
    ensures Progress(chain.View().sent, 0, pass.swapchain.handed, 0, pass.swapchain.consumed, pass.frames.View(),
                     shown, Recreations(oracle, Opened(oracle), |shown|), ops)
    ensures AllRight(shown) <==>
      ImagesInTurn(pass.swapchain.handed, 0, Recreations(oracle, Opened(oracle), |shown|))
  {
    pass := new RenderPass(oracle);
    var acquired := pass.Open();
    chain := new Chain(pass.frames);
    var recreated;
    shown, recreated := RenderLoop(chain, pass, ops);
  }

  /** How far a window has got when it is open. */
  function Opened(oracle: Oracle): Script {
    Script(1, 0, !oracle.acquire(0).Acquired?)
  }

  /** Frame `n` is right if and only if the last recreation before it came after a multiple of
      three frames. */
  predicate RightByTurns(s: Shown, n: nat, before: seq<bool>) {
    Since(before) <= n && (Right(s) <==> (n - Since(before)) % 3 == 0)
  }

  /** With three images, handed out in the order of the slots, frame n of such a window is right
      if and only if the last recreation that the driver's answers caused before it came after
      a multiple of three frames: a recreation resets the framebuffer counter but not the
      frame counter. */
  lemma {:induction false} RightWithThreeImages(pass: RenderPass, shown: seq<Shown>, n: nat)
    requires pass.Valid() && Steady(pass.engine.oracle) && pass.engine.oracle.images(0) == 3
    requires AllMatched(pass.swapchain.handed)
    requires DrawnInTurn(shown, Recreations(pass.engine.oracle, Opened(pass.engine.oracle), |shown|))
    requires TakenInTurn(pass.swapchain.handed, 0, shown) && n < |shown|
    ensures RightByTurns(shown[n], n, Recreations(pass.engine.oracle, Opened(pass.engine.oracle), n))
  {
    MatchedImage(pass, shown, n);
    RightGivenImage(pass.engine.oracle, shown, n);
  }

  lemma {:induction false} RightGivenImage(oracle: Oracle, shown: seq<Shown>, n: nat)
    requires n < |shown| && shown[n].image == n % 3
    requires DrawnInTurn(shown, Recreations(oracle, Opened(oracle), |shown|))
    ensures RightByTurns(shown[n], n, Recreations(oracle, Opened(oracle), n))
  {
    RecreationsPrefix(oracle, Opened(oracle), n, |shown|);
    RightAt(shown, Recreations(oracle, Opened(oracle), |shown|), n, Recreations(oracle, Opened(oracle), n));
  }

  lemma {:induction false} MatchedImage(pass: RenderPass, shown: seq<Shown>, n: nat)
    requires pass.Valid() && Steady(pass.engine.oracle) && pass.engine.oracle.images(0) == 3
    requires AllMatched(pass.swapchain.handed)
    requires TakenInTurn(pass.swapchain.handed, 0, shown) && n < |shown|
    ensures shown[n].image == n % 3
  {
    assert Matched(pass.swapchain.handed[0 + n]);
    RoundRobinOfThree(n);
  }

  lemma {:induction false} RightAt(shown: seq<Shown>, recreated: seq<bool>, n: nat, before: seq<bool>)
    requires DrawnInTurn(shown, recreated) && n < |shown| && shown[n].image == n % 3
    requires before == recreated[..n]
    ensures Since(before) <= n
    ensures Right(shown[n]) <==> (n - Since(before)) % 3 == 0
  {
    SinceBound(before);
    TurnIsSince(before);
    ModuloThree(n, Since(before));
  }

  lemma {:induction false} ModuloThree(n: nat, m: nat)
    requires m <= n
    ensures n % 3 == m % 3 <==> (n - m) % 3 == 0
  {
  }

  lemma {:induction false} SinceUndisturbed(recreated: seq<bool>)
    ensures Since(recreated) == |recreated| <==> forall n | 0 <= n < |recreated| :: !recreated[n]
  {
    if recreated != [] {
      var front := recreated[..|recreated| - 1];
      SinceUndisturbed(front);
      SinceBound(front);
      assert forall n | 0 <= n < |front| :: front[n] == recreated[n];
    }
  }

  /** The frames since the last recreation are all frames if and only if no frame changed
      anything. */
  lemma {:induction false} SinceOpening(o: Oracle, s: Script, n: nat)
    ensures Since(Recreations(o, s, n)) == n <==> forall i | 0 <= i < n :: !ScriptAt(o, s, i).Changes(o)
  {
    var recreated := Recreations(o, s, n);
    SinceUndisturbed(recreated);
    if Since(recreated) == n {
      forall i | 0 <= i < n ensures !ScriptAt(o, s, i).Changes(o) {
        assert !recreated[i];
        RecreationsAt(o, s, n, i);
      }
    } else {
      var i :| 0 <= i < n && recreated[i];
      RecreationsAt(o, s, n, i);
    }
  }

  /** A driver with three images that always hands out the image of the slot, and reports a
      changed surface at the first present. */
  const RECREATES_ONCE := Oracle(n => Acquired(n % 3), n => n == 0, n => 3)

  /** With that driver the second frame draws into framebuffer 0 and presents image 1. */
  method WrongAfterRecreation(op: Operation) returns (shown: seq<Shown>)
    requires op.IsDraw()
    ensures |shown| == 2 && Right(shown[0])
    ensures shown[1].drawn == 0 && shown[1].image == 1 && !Right(shown[1])
  {
    var chain, pass, first := FirstFrame(op);
    var second, recreate := RenderFrame(chain, pass, op);
    shown := [first, second];
  }

  /** The first frame, which is right, and after which the pass is made again. */
  method FirstFrame(op: Operation) returns (chain: Chain, pass: RenderPass, shown: Shown)
    requires op.IsDraw()
    ensures Idle(chain, pass) && Right(shown)
    ensures pass.frames.current == 0 && pass.swapchain.acquired == [1]
    ensures fresh(pass) && fresh(pass.engine) && fresh(pass.swapchain) && fresh(pass.swapchain.syncs) && fresh(pass.frames)
    ensures fresh(chain) && fresh(chain.queue) && fresh(chain.cmd) && fresh(chain.cmd.device)
  {
    var recreate;
    chain, pass := OpenedWindow();
    shown, recreate := RenderFrame(chain, pass, op);
    FirstImages(pass);
  }

  method OpenedWindow() returns (chain: Chain, pass: RenderPass)
    ensures Idle(chain, pass) && pass.engine.oracle == RECREATES_ONCE && pass.swapchain.acquired == [0]
    ensures fresh(pass) && fresh(pass.engine) && fresh(pass.swapchain) && fresh(pass.swapchain.syncs) && fresh(pass.frames)
    ensures fresh(chain) && fresh(chain.queue) && fresh(chain.cmd) && fresh(chain.cmd.device)
    ensures pass.frames.current == 0 && |pass.engine.answers| == 1 && |pass.engine.presents| == 0
    ensures !pass.swapchain.skipFrame && pass.swapchain.consumed == 0
  {
    pass := OpenedOnce();
    chain := new Chain(pass.frames);
  }

  method OpenedOnce() returns (pass: RenderPass)
    ensures pass.Valid() && pass.engine.oracle == RECREATES_ONCE && pass.swapchain.acquired == [0]
    ensures fresh(pass) && fresh(pass.engine) && fresh(pass.swapchain) && fresh(pass.swapchain.syncs) && fresh(pass.frames)
    ensures pass.frames.current == 0 && |pass.engine.answers| == 1 && |pass.engine.presents| == 0
    ensures !pass.swapchain.skipFrame && pass.swapchain.consumed == 0
  {
    pass := new RenderPass(RECREATES_ONCE);
    var acquired := pass.Open();
    assert Given(pass.engine.answers) == [0];
    assert Images(pass.swapchain.handed)[0] == 0;
  }

  lemma {:induction false} FirstImages(pass: RenderPass)
    requires pass.Valid() && pass.engine.oracle == RECREATES_ONCE && |pass.engine.answers| == 2
    requires pass.swapchain.consumed == 1
    ensures pass.swapchain.acquired == [1]
  {
    assert Steady(pass.engine.oracle);
    assert pass.engine.answers == ([] + [Acquired(0)]) + [Acquired(1)];
    GivenNext([], Acquired(0));
    GivenNext([] + [Acquired(0)], Acquired(1));
    assert Given(pass.engine.answers) == [0, 1];
    assert Images(pass.swapchain.handed)[1] == 1;
  }
}
