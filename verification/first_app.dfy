/**
 * The frame orchestration of `FirstApp`: the per-frame acquire, record,
 * submit protocol, the recreation of the swap chain when the surface is
 * stale, sub-optimal or resized, and the command buffers kept one per
 * swap-chain image.
 *
 * Vulkan and GLFW calls are replaced by updates of an abstract state: the
 * current swap chain (its identity, which also names its render pass, its
 * image count and extent), the pipeline (the render pass it was built
 * against), the command buffers as handles from an allocator, the window's
 * resized flag and a trace of the recordings and submissions made. What the
 * device and the window report (acquire and submit results, the acquired
 * image index, the polled extents, the image count of a new chain) comes in
 * as parameters.
 */
module App {
  import opened Wrappers

  // ---------------------------------------------------------------------
  // Result codes and the per-frame decision
  // ---------------------------------------------------------------------

  /** A `VkResult` code. */
  type VkResult = int

  const Success: VkResult := 0
  const Suboptimal: VkResult := 1000001003
  const ErrorOutOfDate: VkResult := -1000001004

  const AcquireFailure: string := "failed to acquire swap chain image!"
  const PresentFailure: string := "failed to present swap chain image!"

  /** How one call of `drawFrame` ends. */
  datatype FrameOutcome =
    | Dropped                     // acquire reported the chain out of date: recreated, nothing drawn
    | Presented(recreated: bool)  // recorded and submitted; `recreated` if the chain was rebuilt afterwards
    | Failed(message: string)     // a thrown `std::runtime_error`

  /** The frame recorded and submitted a command buffer. */
  predicate Submits(o: FrameOutcome)
  {
    o.Presented? || o == Failed(PresentFailure)
  }

  /** The frame ended by recreating the swap chain. */
  predicate Recreates(o: FrameOutcome)
  {
    o == Dropped || o == Presented(true)
  }

  /** What `drawFrame` does, from the acquire result, the submit result and
      the window's resized flag as it stands when the frame starts. */
  function PlanFrame(acquire: VkResult, submit: VkResult, resized: bool): FrameOutcome
  {
    if acquire == ErrorOutOfDate then Dropped
    else if acquire != Success && acquire != Suboptimal then Failed(AcquireFailure)
    else if submit == ErrorOutOfDate || submit == Suboptimal || resized then Presented(true)
    else if submit != Success then Failed(PresentFailure)
    else Presented(false)
  }

  /** The frame protocol, branch by branch, as properties of `PlanFrame`. */
  lemma PlanFrameDecides(acquire: VkResult, submit: VkResult, resized: bool)
    ensures var o := PlanFrame(acquire, submit, resized);
      // out of date on acquire: recreate and return without recording or submitting
      && (o == Dropped <==> acquire == ErrorOutOfDate)
      // any acquire result other than the three known ones is fatal, before anything is recorded
      && (o == Failed(AcquireFailure) <==> acquire != Success && acquire != Suboptimal && acquire != ErrorOutOfDate)
      // success and sub-optimal both go on to record and submit
      && (Submits(o) <==> acquire == Success || acquire == Suboptimal)
      // after a submit, stale, sub-optimal or resized means recreate
      && (Submits(o) ==> (o == Presented(true) <==> submit == ErrorOutOfDate || submit == Suboptimal || resized))
      // after a submit, a result other than success that did not recreate is fatal
      && (Submits(o) ==>
            (o == Failed(PresentFailure) <==>
               submit != Success && submit != ErrorOutOfDate && submit != Suboptimal && !resized))
      // the recoverable codes never make a frame fail
      && ((acquire == Success || acquire == Suboptimal || acquire == ErrorOutOfDate) &&
          (submit == Success || submit == Suboptimal || submit == ErrorOutOfDate)
          ==> !o.Failed?)
  {
  }

  // ---------------------------------------------------------------------
  // The window's extent
  // ---------------------------------------------------------------------

  datatype Extent = Extent(width: nat, height: nat)

  predicate NonZero(e: Extent)
  {
    e.width != 0 && e.height != 0
  }

  /** One `getExtent` poll of the wait loop in `recreateSwapChain`, and
      whether the `glfwWaitEvents` that follows it delivers a resize. */
  datatype Poll = Poll(extent: Extent, resizeEvent: bool)

  /** Successive polls include a usable (non-zero) extent: the minimised
      window is restored at some point. */
  predicate EventuallyNonZero(polls: seq<Poll>)
  {
    exists k :: 0 <= k < |polls| && NonZero(polls[k].extent)
  }

  /** The poll at which the wait loop of `recreateSwapChain` stops: the first
      one with a non-zero width and height. */
  function FirstNonZero(polls: seq<Poll>): (k: nat)
    requires EventuallyNonZero(polls)
    ensures k < |polls| && NonZero(polls[k].extent)
    ensures forall j :: 0 <= j < k ==> !NonZero(polls[j].extent)
  {
    if NonZero(polls[0].extent) then 0
    else
      assert EventuallyNonZero(polls[1..]) by {
        var k :| 0 <= k < |polls| && NonZero(polls[k].extent);
        assert polls[1..][k - 1] == polls[k];
      }
      1 + FirstNonZero(polls[1..])
  }

  /** A resize was delivered by one of the `glfwWaitEvents` calls of the wait
      loop: the loop waits after every poll it makes inside its body, that is
      after the second poll up to the first non-zero one. */
  function WaitResized(polls: seq<Poll>): bool
  {
    if |polls| <= 1 || NonZero(polls[0].extent) then false
    else polls[1].resizeEvent || WaitResized(polls[1..])
  }

  /** The resized flag after a frame that started with `flag`: a recreation
      after a submit clears it first, and the wait of any recreation may raise
      it again. */
  function FlagAfter(o: FrameOutcome, flag: bool, polls: seq<Poll>): bool
  {
    if o == Presented(true) then WaitResized(polls)
    else if o == Dropped then flag || WaitResized(polls)
    else flag
  }

  // ---------------------------------------------------------------------
  // The orchestrator's state
  // ---------------------------------------------------------------------

  /** A swap chain as the orchestrator sees it. `id` identifies the chain and
      its render pass; `predecessor` is the chain whose handle was passed in
      when this one was created. */
  datatype SwapChain = SwapChain(id: nat, imageCount: nat, extent: Extent, predecessor: Option<nat>)

  /** A graphics pipeline, valid only for the render pass it was built against. */
  datatype Pipeline = Pipeline(renderPass: nat, generation: nat)

  /** A command buffer handle. */
  type CommandBuffer = nat

  /** What the orchestrator does with a command buffer: record it (into the
      current chain's render pass and framebuffer, with the current pipeline
      bound, over the chain's extent) or submit it. */
  datatype Event =
    | Recorded(imageIndex: nat, buffer: CommandBuffer, renderPass: nat, pipeline: Pipeline, extent: Extent)
    | Submitted(imageIndex: nat, buffer: CommandBuffer)

  /** Every recording bound a pipeline built for the render pass it recorded
      into, over a non-zero extent. */
  predicate Coherent(t: seq<Event>)
  {
    forall k :: 0 <= k < |t| && t[k].Recorded? ==>
      t[k].pipeline.renderPass == t[k].renderPass && NonZero(t[k].extent)
  }

  function Elements(s: seq<CommandBuffer>): set<CommandBuffer>
  {
    set b | b in s
  }

  /** The number of submissions in a trace. */
  function CountSubmitted(t: seq<Event>): nat
  {
    if t == [] then 0 else CountSubmitted(t[..|t| - 1]) + (if t[|t| - 1].Submitted? then 1 else 0)
  }

  class FirstApp {
    var swapChain: Option<SwapChain>
    var chainsCreated: nat
    var hasPipelineLayout: bool
    var pipeline: Option<Pipeline>
    var pipelinesBuilt: nat
    var commandBuffers: seq<CommandBuffer>
    /** The buffers allocated from the device's command pool and not yet freed. */
    var pool: set<CommandBuffer>
    /** Every handle the pool has ever given out is below this one. */
    var nextBuffer: CommandBuffer
    /** The window's "was resized" flag. */
    var windowResized: bool
    var trace: seq<Event>

    /** The command buffers are distinct handles the pool has given out. */
    ghost predicate BuffersWellFormed()
      reads this
    {
      && (forall i, j :: 0 <= i < j < |commandBuffers| ==> commandBuffers[i] != commandBuffers[j])
      && (forall i :: 0 <= i < |commandBuffers| ==> commandBuffers[i] < nextBuffer)
      && (forall b :: b in pool ==> b < nextBuffer)
    }

    /** The state between frames: a chain with a usable extent, a pipeline
        built for that chain's render pass, exactly one command buffer per
        swap-chain image, and no allocated buffer other than those. */
    ghost predicate Valid()
      reads this
    {
      && swapChain.Some?
      && NonZero(swapChain.value.extent)
      && swapChain.value.id < chainsCreated
      && hasPipelineLayout
      && pipeline.Some?
      && pipeline.value.renderPass == swapChain.value.id
      && pipeline.value.generation < pipelinesBuilt
      && |commandBuffers| == swapChain.value.imageCount
      && pool == Elements(commandBuffers)
      && BuffersWellFormed()
      && Coherent(trace)
    }

    /** `FirstApp()`: pipeline layout, then the first swap chain and its
        pipeline, then the command buffers. */
    constructor (polls: seq<Poll>, imageCount: nat)
      requires EventuallyNonZero(polls)
      ensures Valid()
      ensures swapChain == Some(SwapChain(0, imageCount, polls[FirstNonZero(polls)].extent, None))
      ensures pipeline == Some(Pipeline(0, 0))
      ensures |commandBuffers| == imageCount
      ensures trace == [] && windowResized == WaitResized(polls)
    {
      swapChain, chainsCreated := None, 0;
      hasPipelineLayout := false;
      pipeline, pipelinesBuilt := None, 0;
      commandBuffers, pool, nextBuffer := [], {}, 0;
      windowResized := false;
      trace := [];
      new;
      // loadGameObjects(): scene set-up, not part of this model
      CreatePipelineLayout();
      RecreateSwapChain(polls, imageCount);
      CreateCommandBuffers();
    }

    /** `createPipelineLayout`. */
    method CreatePipelineLayout()
      modifies this`hasPipelineLayout
      ensures hasPipelineLayout
    {
      hasPipelineLayout := true;
    }

    /** `createPipeline`: a new pipeline for the current chain's render pass;
        the source asserts that the chain and the layout exist. */
    method CreatePipeline()
      requires swapChain.Some? && hasPipelineLayout
      modifies this`pipeline, this`pipelinesBuilt
      ensures pipeline == Some(Pipeline(swapChain.value.id, old(pipelinesBuilt)))
      ensures pipelinesBuilt == old(pipelinesBuilt) + 1
    {
      pipeline := Some(Pipeline(swapChain.value.id, pipelinesBuilt));
      pipelinesBuilt := pipelinesBuilt + 1;
    }

    /** `createCommandBuffers`: one freshly allocated buffer per image of the
        current chain, replacing the whole list. */
    method CreateCommandBuffers()
      requires swapChain.Some?
      modifies this`commandBuffers, this`pool, this`nextBuffer
      ensures |commandBuffers| == swapChain.value.imageCount
      ensures forall i :: 0 <= i < |commandBuffers| ==> commandBuffers[i] == old(nextBuffer) + i
      ensures nextBuffer == old(nextBuffer) + |commandBuffers|
      ensures pool == old(pool) + Elements(commandBuffers)
    {
      var count := swapChain.value.imageCount;
      var first := nextBuffer;
      commandBuffers := seq(count, i => first + i);
      pool := pool + Elements(commandBuffers);
      nextBuffer := nextBuffer + count;
    }

    /** `freeCommandBuffers`: every buffer goes back to the pool; the list is emptied. */
    method FreeCommandBuffers()
      modifies this`commandBuffers, this`pool
      ensures commandBuffers == []
      ensures pool == old(pool) - Elements(old(commandBuffers))
    {
      pool := pool - Elements(commandBuffers);
      commandBuffers := [];
    }

    /** `recordCommandBuffer`: the acquired index must select one of the
        buffers; the recording uses the current chain and pipeline. */
    method RecordCommandBuffer(imageIndex: nat)
      requires imageIndex < |commandBuffers|
      requires swapChain.Some? && pipeline.Some?
      modifies this`trace
      ensures trace == old(trace) + [Recorded(imageIndex, commandBuffers[imageIndex], swapChain.value.id,
                                              pipeline.value, swapChain.value.extent)]
    {
      trace := trace + [Recorded(imageIndex, commandBuffers[imageIndex], swapChain.value.id,
                                 pipeline.value, swapChain.value.extent)];
    }

    /** The wait loop at the start of `recreateSwapChain`: poll the window's
        extent until it is non-zero, waiting for events between polls. */
    method WaitForExtent(polls: seq<Poll>) returns (extent: Extent)
      requires EventuallyNonZero(polls)
      modifies this`windowResized
      ensures extent == polls[FirstNonZero(polls)].extent
      ensures NonZero(extent)
      // the resize callback may run while the loop waits for events
      ensures windowResized == (old(windowResized) || WaitResized(polls))
    {
      var k := 0;
      extent := polls[k].extent;
      while extent.width == 0 || extent.height == 0
        invariant k <= FirstNonZero(polls)
        invariant extent == polls[k].extent
        invariant (old(windowResized) || WaitResized(polls)) == (windowResized || WaitResized(polls[k..]))
        decreases FirstNonZero(polls) - k
      {
        assert polls[k..][1] == polls[k + 1] && polls[k..][1..] == polls[k + 1..];
        k := k + 1;
        extent := polls[k].extent;
        // glfwWaitEvents(): the resize callback may raise the flag
        if polls[k].resizeEvent {
          windowResized := true;
        }
      }
      assert polls[k..][0] == polls[k];
    }

    /** `recreateSwapChain`: poll the window until its extent is non-zero,
        build a chain of exactly that extent (chained to the old one if there
        is one), reallocate the command buffers only when an existing chain's
        image count changed, and rebuild the pipeline in every case. */
    method RecreateSwapChain(polls: seq<Poll>, imageCount: nat)
      requires EventuallyNonZero(polls)
      requires hasPipelineLayout
      requires swapChain.Some? ==> Valid()
      requires swapChain.None? ==> commandBuffers == [] && pool == {}
      modifies this`swapChain, this`chainsCreated, this`pipeline, this`pipelinesBuilt
      modifies this`commandBuffers, this`pool, this`nextBuffer, this`windowResized
      ensures swapChain == Some(SwapChain(old(chainsCreated), imageCount, polls[FirstNonZero(polls)].extent,
                                          if old(swapChain).Some? then Some(old(swapChain).value.id) else None))
      ensures chainsCreated == old(chainsCreated) + 1
      ensures pipeline == Some(Pipeline(old(chainsCreated), old(pipelinesBuilt)))
      ensures pipelinesBuilt == old(pipelinesBuilt) + 1
      ensures old(swapChain).None? || imageCount == |old(commandBuffers)| ==>
                commandBuffers == old(commandBuffers) && pool == old(pool) && nextBuffer == old(nextBuffer)
      ensures old(swapChain).Some? ==> Valid() && |commandBuffers| == imageCount
      ensures old(swapChain).Some? && imageCount != |old(commandBuffers)| ==>
                (forall i :: 0 <= i < |commandBuffers| ==> commandBuffers[i] >= old(nextBuffer))
      // the resize callback may run while the loop waits for events
      ensures windowResized == (old(windowResized) || WaitResized(polls))
    {
      var extent := WaitForExtent(polls);
      // vkDeviceWaitIdle(): waits for the GPU, no effect on this state

      var previous := swapChain;
      if previous.None? {
        swapChain := Some(SwapChain(chainsCreated, imageCount, extent, None));
        chainsCreated := chainsCreated + 1;
      } else {
        swapChain := Some(SwapChain(chainsCreated, imageCount, extent, Some(previous.value.id)));
        chainsCreated := chainsCreated + 1;
        if imageCount != |commandBuffers| {
          ghost var oldBuffers := commandBuffers;
          FreeCommandBuffers();
          CreateCommandBuffers();
          assert pool == Elements(commandBuffers) by {
            assert old(pool) == Elements(oldBuffers);
          }
        }
      }
      CreatePipeline();
    }

    /** `drawFrame`: acquire, then record and submit the acquired image's
        command buffer, recreating the swap chain when the device or the
        window says so. The outcome is the one `PlanFrame` gives for the
        flag as it stood when the frame started. */
    method DrawFrame(acquire: VkResult, acquiredIndex: nat, submit: VkResult, polls: seq<Poll>, imageCount: nat)
      returns (outcome: FrameOutcome)
      requires Valid()
      // the device only hands out indices of the current chain's images
      requires acquire == Success || acquire == Suboptimal ==> acquiredIndex < swapChain.value.imageCount
      requires Recreates(PlanFrame(acquire, submit, windowResized)) ==> EventuallyNonZero(polls)
      modifies this
      ensures Valid()
      ensures outcome == PlanFrame(acquire, submit, old(windowResized))
      ensures Submits(outcome) ==>
                trace == old(trace) + [Recorded(acquiredIndex, old(commandBuffers)[acquiredIndex],
                                                old(swapChain).value.id, old(pipeline).value,
                                                old(swapChain).value.extent),
                                       Submitted(acquiredIndex, old(commandBuffers)[acquiredIndex])]
      ensures !Submits(outcome) ==> trace == old(trace)
      ensures windowResized == FlagAfter(outcome, old(windowResized), polls)
      ensures Recreates(outcome) ==>
                && swapChain == Some(SwapChain(old(chainsCreated), imageCount, polls[FirstNonZero(polls)].extent,
                                               Some(old(swapChain).value.id)))
                && pipeline == Some(Pipeline(old(chainsCreated), old(pipelinesBuilt)))
                && |commandBuffers| == imageCount
                && (imageCount == |old(commandBuffers)| ==> commandBuffers == old(commandBuffers))
      ensures !Recreates(outcome) ==>
                && swapChain == old(swapChain) && pipeline == old(pipeline)
                && commandBuffers == old(commandBuffers) && pool == old(pool)
                && chainsCreated == old(chainsCreated) && pipelinesBuilt == old(pipelinesBuilt)
                && nextBuffer == old(nextBuffer)
    {
      var result := acquire;

      if result == ErrorOutOfDate {
        RecreateSwapChain(polls, imageCount);
        return Dropped;
      }

      if result != Success && result != Suboptimal {
        return Failed(AcquireFailure);
      }

      RecordCommandBuffer(acquiredIndex);
      trace := trace + [Submitted(acquiredIndex, commandBuffers[acquiredIndex])];
      result := submit;
      if result == ErrorOutOfDate || result == Suboptimal || windowResized {
        windowResized := false;
        RecreateSwapChain(polls, imageCount);
        return Presented(true);
      }

      if result != Success {
        return Failed(PresentFailure);
      }
      return Presented(false);
    }

    /** One pass of the run loop: the events polled may raise the resized
        flag, then one frame is drawn. */
    method RunFrame(input: FrameInput) returns (outcome: FrameOutcome)
      requires Valid()
      requires input.acquire == Success || input.acquire == Suboptimal ==>
                 input.imageIndex < swapChain.value.imageCount
      requires Recreates(PlanFrame(input.acquire, input.submit, windowResized || input.resizeEvent)) ==>
                 EventuallyNonZero(input.polls)
      modifies this
      ensures Valid()
      ensures outcome == PlanFrame(input.acquire, input.submit, old(windowResized) || input.resizeEvent)
      ensures swapChain.value.imageCount ==
                if Recreates(outcome) then input.imageCount else old(swapChain).value.imageCount
      ensures windowResized == FlagAfter(outcome, old(windowResized) || input.resizeEvent, input.polls)
      ensures Submits(outcome) ==>
                trace == old(trace) + [Recorded(input.imageIndex, old(commandBuffers)[input.imageIndex],
                                                old(swapChain).value.id, old(pipeline).value,
                                                old(swapChain).value.extent),
                                       Submitted(input.imageIndex, old(commandBuffers)[input.imageIndex])]
      ensures !Submits(outcome) ==> trace == old(trace)
      ensures CountSubmitted(trace) == CountSubmitted(old(trace)) + if Submits(outcome) then 1 else 0
      ensures Recreates(outcome) ==>
                && swapChain == Some(SwapChain(old(chainsCreated), input.imageCount,
                                               input.polls[FirstNonZero(input.polls)].extent,
                                               Some(old(swapChain).value.id)))
                && pipeline == Some(Pipeline(old(chainsCreated), old(pipelinesBuilt)))
                && |commandBuffers| == input.imageCount
                && (input.imageCount == |old(commandBuffers)| ==> commandBuffers == old(commandBuffers))
      ensures !Recreates(outcome) ==>
                && swapChain == old(swapChain) && pipeline == old(pipeline)
                && commandBuffers == old(commandBuffers) && pool == old(pool)
                && chainsCreated == old(chainsCreated) && pipelinesBuilt == old(pipelinesBuilt)
                && nextBuffer == old(nextBuffer)
    {
      // glfwPollEvents(): the resize callback may raise the flag
      if input.resizeEvent {
        windowResized := true;
      }
      ghost var before := trace;
      outcome := DrawFrame(input.acquire, input.imageIndex, input.submit, input.polls, input.imageCount);
      if Submits(outcome) {
        FrameCounted(before, trace);
      }
    }

    /** `run`: one `drawFrame` per input until the window closes (the inputs
        run out) or a frame throws; the events polled before each frame may
        set the resized flag. */
    method Run(inputs: seq<FrameInput>) returns (failure: Option<string>)
      requires Valid()
      requires Feasible(inputs, swapChain.value.imageCount, windowResized)
      modifies this
      ensures Valid()
      ensures failure == Simulate(inputs, old(windowResized)).failure
      ensures CountSubmitted(trace) == CountSubmitted(old(trace)) + Simulate(inputs, old(windowResized)).submitted
    {
      ghost var start := CountSubmitted(trace);
      ghost var whole := Simulate(inputs, windowResized);
      ghost var done := 0;
      var i := 0;
      assert inputs[i..] == inputs;
      while i < |inputs|
        invariant i <= |inputs|
        invariant Valid()
        invariant Feasible(inputs[i..], swapChain.value.imageCount, windowResized)
        invariant CountSubmitted(trace) == start + done
        invariant whole.failure == Simulate(inputs[i..], windowResized).failure
        invariant whole.submitted == done + Simulate(inputs[i..], windowResized).submitted
      {
        ghost var resized, imageCount := windowResized, swapChain.value.imageCount;
        FeasibleFirst(inputs, i, imageCount, resized);
        var outcome := RunFrame(inputs[i]);
        RunStep(inputs, i, imageCount, resized, outcome, whole, done);
        done := done + if Submits(outcome) then 1 else 0;
        if outcome.Failed? {
          return Some(outcome.message);
        }
        i := i + 1;
      }
      assert inputs[i..] == [];
      // vkDeviceWaitIdle()
      return None;
    }
  }

  /** A frame that records and submits adds one submission to the trace. */
  lemma FrameCounted(before: seq<Event>, after: seq<Event>)
    requires |after| == |before| + 2 && after[..|before|] == before
    requires after[|before|].Recorded? && after[|before| + 1].Submitted?
    ensures CountSubmitted(after) == CountSubmitted(before) + 1
  {
    assert after[..|after| - 1][..|before|] == before;
  }

  // ---------------------------------------------------------------------
  // Whole runs
  // ---------------------------------------------------------------------

  /** What the window and the device report for one iteration of the run loop. */
  datatype FrameInput = FrameInput(
    resizeEvent: bool,
    acquire: VkResult,
    imageIndex: nat,
    submit: VkResult,
    polls: seq<Poll>,
    imageCount: nat)

  /** How a run ends: the number of frames submitted and the exception that
      ended it, if any. */
  datatype RunResult = RunResult(submitted: nat, failure: Option<string>)

  /** The run loop on the resized flag alone: each frame's outcome is
      `PlanFrame` for the flag after that frame's events, the flag then
      changes as `FlagAfter` says, and a failure ends the run. */
  function Simulate(inputs: seq<FrameInput>, resized: bool): (r: RunResult)
    ensures r.submitted <= |inputs|
    // only the two checks of `drawFrame` can end a run early
    ensures r.failure.Some? ==> r.failure.value == AcquireFailure || r.failure.value == PresentFailure
  {
    if inputs == [] then RunResult(0, None)
    else
      var flag := resized || inputs[0].resizeEvent;
      var o := PlanFrame(inputs[0].acquire, inputs[0].submit, flag);
      var here := if Submits(o) then 1 else 0;
      if o.Failed? then RunResult(here, Some(o.message))
      else
        var rest := Simulate(inputs[1..], FlagAfter(o, flag, inputs[0].polls));
        rest.(submitted := here + rest.submitted)
  }

  /** What the device and the window report in a run is something they can
      report: an acquired index selects an image of the chain current at that
      frame, and every recreation eventually sees a non-zero extent. */
  predicate Feasible(inputs: seq<FrameInput>, imageCount: nat, resized: bool)
  {
    inputs != [] ==>
      var flag := resized || inputs[0].resizeEvent;
      var o := PlanFrame(inputs[0].acquire, inputs[0].submit, flag);
      && (inputs[0].acquire == Success || inputs[0].acquire == Suboptimal ==> inputs[0].imageIndex < imageCount)
      && (Recreates(o) ==> EventuallyNonZero(inputs[0].polls))
      && (!o.Failed? ==>
            Feasible(inputs[1..], if Recreates(o) then inputs[0].imageCount else imageCount,
                     FlagAfter(o, flag, inputs[0].polls)))
  }

  /** The frame at position `i` of a feasible run meets the requirements of
      `RunFrame`. */
  lemma FeasibleFirst(inputs: seq<FrameInput>, i: nat, imageCount: nat, resized: bool)
    requires i < |inputs| && Feasible(inputs[i..], imageCount, resized)
    ensures inputs[i].acquire == Success || inputs[i].acquire == Suboptimal ==> inputs[i].imageIndex < imageCount
    ensures Recreates(PlanFrame(inputs[i].acquire, inputs[i].submit, resized || inputs[i].resizeEvent)) ==>
              EventuallyNonZero(inputs[i].polls)
  {
    assert inputs[i..][0] == inputs[i];
  }

  /** One frame of the run loop, on `Simulate` and `Feasible`: if the run
      from position `i` with `done` frames already submitted predicts `whole`,
      so does the run from position `i + 1` after a frame with outcome `o`,
      unless `o` ends the run. */
  lemma RunStep(inputs: seq<FrameInput>, i: nat, imageCount: nat, resized: bool, o: FrameOutcome,
                whole: RunResult, done: nat)
    requires i < |inputs| && Feasible(inputs[i..], imageCount, resized)
    requires o == PlanFrame(inputs[i].acquire, inputs[i].submit, resized || inputs[i].resizeEvent)
    requires whole.failure == Simulate(inputs[i..], resized).failure
    requires whole.submitted == done + Simulate(inputs[i..], resized).submitted
    ensures o.Failed? ==> whole == RunResult(done + if Submits(o) then 1 else 0, Some(o.message))
    ensures !o.Failed? ==>
              var flag := FlagAfter(o, resized || inputs[i].resizeEvent, inputs[i].polls);
              && whole.failure == Simulate(inputs[i + 1..], flag).failure
              && whole.submitted == (done + if Submits(o) then 1 else 0) + Simulate(inputs[i + 1..], flag).submitted
              && Feasible(inputs[i + 1..], if Recreates(o) then inputs[i].imageCount else imageCount, flag)
  {
    assert inputs[i..][0] == inputs[i] && inputs[i..][1..] == inputs[i + 1..];
  }

  /** The frames whose acquire reports the chain out of date. */
  function CountStale(inputs: seq<FrameInput>): nat
  {
    if inputs == [] then 0
    else (if inputs[0].acquire == ErrorOutOfDate then 1 else 0) + CountStale(inputs[1..])
  }

  /** On a steady surface (no resize, neither polled nor delivered while
      waiting; every submit succeeds) where acquire either succeeds or reports
      the chain out of date, nothing fails and exactly the out-of-date frames
      are dropped. */
  lemma {:induction false} SteadyRunDropsOnlyStaleFrames(inputs: seq<FrameInput>, resized: bool)
    requires forall i :: 0 <= i < |inputs| ==>
               && !inputs[i].resizeEvent
               && !WaitResized(inputs[i].polls)
               && inputs[i].submit == Success
               && (inputs[i].acquire == Success || inputs[i].acquire == ErrorOutOfDate)
    ensures Simulate(inputs, resized).failure == None
    ensures Simulate(inputs, resized).submitted + CountStale(inputs) == |inputs|
  {
    if inputs != [] {
      var o := PlanFrame(inputs[0].acquire, inputs[0].submit, resized);
      SteadyRunDropsOnlyStaleFrames(inputs[1..], FlagAfter(o, resized, inputs[0].polls));
    }
  }
}
