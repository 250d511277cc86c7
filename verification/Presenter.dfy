/**
 The presenter object: src/vkexec_graphics/presenter_frame.cpp and the
 swapchain set-up of src/vkexec_graphics/presenter.cpp, one method each. The
 results of Vulkan calls are arbitrary, and the GPU and the presentation engine
 may progress whenever GpuRuns is called.
 */
module Presenter {
  import opened Optional
  import opened Fallible
  import opened Gpu
  import opened PresenterFrame

  const FRAMES: nat := 2

  /** What vkAcquireNextImageKHR reported. */
  datatype AcquireOutcome = ImageReady | OutOfDate | AcquireError

  /** What vkQueuePresentKHR reported: presented, presented but out of date, or an error that may have taken effect. */
  datatype PresentOutcome = Presented | Stale | PresentError(effect: bool)

  /**
   What the calls of a recreation answer: the wait for the device, the swapchain
   with its number of images, the depth attachment, and for each image its new
   semaphore and framebuffer, where a handle that is null or not new stands for a
   failed creation.
   */
  datatype Answers = Answers(idle: bool, swapchain: bool, images: nat, depth: bool, semaphores: nat -> Handle, buffers: nat -> Handle)

  /** A swapchain that was made has an image. */
  type Calls = c: Answers | c.swapchain ==> c.images > 0 witness Answers(true, true, 1, true, i => i + 1, i => i + 1)

  /** Whether a recreation destroys what there was and does not get as far as the new framebuffers. */
  predicate BreaksOff(calls: Calls) {
    calls.idle && !(calls.swapchain && calls.depth)
  }

  /** Each of the first n is made, none twice, and none is a frame's. */
  predicate AllMade(frames: seq<FrameSync>, made: nat -> Handle, n: nat) {
    && (forall i | 0 <= i < n :: made(i) != NULL && forall k | 0 <= k < |frames| :: made(i) != frames[k].imageAvailable)
    && (forall i, j | 0 <= i < j < n :: made(i) != made(j))
  }

  /** Every call of the recreation succeeds. */
  predicate Succeeds(calls: Calls, frames: seq<FrameSync>) {
    && calls.idle && calls.swapchain && calls.depth && AllMade(frames, calls.semaphores, calls.images)
    && forall i | 0 <= i < calls.images :: calls.buffers(i) != NULL
  }

  /** What the calls of an acquisition answer: the wait for the slot, the acquire with its image, and the wait for that image. */
  datatype AcquireCalls = AcquireCalls(waited: bool, outcome: AcquireOutcome, image: nat, imageWaited: bool)

  /** Those of an empty submission; a fence that is null or not new stands for a failed creation. */
  datatype ConsumeCalls = ConsumeCalls(recorded: bool, fence: Handle, submitted: bool, waited: bool)

  /** New sync objects, in the same way. */
  datatype RenewCalls = RenewCalls(imageAvailable: Handle, rendered: Handle, inFlight: Handle)

  datatype AbandonCalls = AbandonCalls(idle: bool, consume: ConsumeCalls, presented: PresentOutcome, idleAgain: bool, renew: RenewCalls)

  datatype BeginCalls = BeginCalls(acquire: AcquireCalls, reset: bool, began: bool, abandon: AbandonCalls)

  datatype EndCalls = EndCalls(ended: bool, submitted: bool, presented: PresentOutcome)

  class Presenter {
    var frames: seq<FrameSync>
    var renderFinished: seq<Handle>
    var imagesInFlight: seq<Handle>
    var framebuffers: seq<Handle>
    var images: Option<nat>               // the swapchain, if any, by its number of images
    var width: nat
    var height: nat
    var frameIndex: nat
    var currentImage: nat
    var resizeRequired: bool
    var suspended: bool
    var frameOpen: bool
    var recordingOpen: bool
    var acquiredWaitConsumed: bool
    var device: Device
    ghost var open: Option<Open>
    ghost var recreated: bool             // the last recreation that got past its wait for the device succeeded
    ghost var drawnWidth: nat             // the size the last recreation that succeeded was for, and so the framebuffers
    ghost var drawnHeight: nat
    ghost var terminal: bool              // a wait on the device failed, or a call threw: nothing may be called any more

    /** Each image of the swapchain has its semaphore and a place for its framebuffer. */
    predicate Drawable()
      reads `framebuffers, `images, `renderFinished
    {
      framebuffers != [] && images == Some(|framebuffers|) && |framebuffers| == |renderFinished| && NULL !in renderFinished
    }

    /** The swapchain with everything an acquired image needs. */
    predicate Intact()
      reads `framebuffers, `images, `renderFinished
    {
      Drawable() && NULL !in framebuffers
    }

    /** The framebuffers are of this size. */
    ghost predicate DrawsAt(w: nat, h: nat)
      reads `drawnWidth, `drawnHeight
    {
      drawnWidth == w && drawnHeight == h
    }

    /** What the calls of a recreation made, in the order of the images. */
    ghost predicate MadeBy(calls: Calls)
      reads `framebuffers, `images, `renderFinished
    {
      && images == Some(calls.images) && |framebuffers| == |renderFinished| == calls.images
      && forall i | 0 <= i < calls.images :: framebuffers[i] == calls.buffers(i) && renderFinished[i] == calls.semaphores(i)
    }

    predicate Blocked()
      reads `suspended, `resizeRequired
    {
      suspended || resizeRequired
    }

    ghost predicate Flags()
      reads this
    {
      && !terminal && frameIndex < 2
      && (frameOpen <==> open.Some?)
      && (open.Some? ==> open.value.slot == frameIndex && open.value.image == currentImage && Drawable()
                         && (acquiredWaitConsumed <==> open.value.phase in {Consumed, Cleared}))
      && (recordingOpen ==> open.Some? && open.value.phase == Acquired(true))
      && (framebuffers != [] ==> Drawable())
      && (Intact() <==> images.Some? && recreated)
      && (images.None? ==> renderFinished == [] && Blocked())
    }

    ghost predicate Valid()
      reads this
    {
      && Sound(device, frames, renderFinished, imagesInFlight, open)
      && NothingLeaked(device, frames, renderFinished)
      && Flags()
    }

    /** The GPU and the presentation engine take any number of steps. */
    method GpuRuns()
      requires Valid()
      modifies `device
      ensures Valid() && Progressed(old(device), device)
      ensures device.pending.Keys <= old(device.pending.Keys) && device.held == old(device.held)
    {
      hide Sound, NothingLeaked, SameHandles, Progressed, Waitable, Retire, Present, WaitForFence, AfterAcquire;
      var slots: set<nat> := *;
      var consumed: set<Handle> := *;
      ProgressKeepsSound(device, frames, renderFinished, imagesInFlight, open, slots, consumed);
      SoundLengths(device, frames, renderFinished, imagesInFlight, open);
      ghost var before := device;
      device := Present(Retire(device, slots), consumed);
      SameHandlesLeakNothing(before, device, frames, renderFinished);
    }

    /**
     An image is acquired only into a slot whose work has retired, and an image
     whose work has retired; no wait is made that could last forever. On a
     presenter left without framebuffers no frame can come of it: if the engine
     hands out an image, looking its framebuffer up throws.
     */
    method AcquireFrame(calls: AcquireCalls) returns (r: Result<Option<AcquiredFrame>>, thrown: bool)
      requires Valid()
      modifies `device, `imagesInFlight, `currentImage, `frameOpen, `recordingOpen, `acquiredWaitConsumed, `resizeRequired, `open, `terminal
      ensures terminal ==> r.Err?
      ensures !terminal ==> Valid() && !thrown
      ensures var handed := !old(frameOpen) && !old(Blocked()) && calls.waited && calls.outcome.ImageReady?;
              var named := calls.image < |old(imagesInFlight)| && old(imagesInFlight)[calls.image] != NULL;
              && (thrown <==> handed && calls.image >= |framebuffers| && (named ==> calls.imageWaited))
              && (terminal <==> handed && (calls.image >= |framebuffers| || (named && !calls.imageWaited)))
      ensures thrown ==> (frameOpen <==> calls.image < |old(imagesInFlight)|)
      ensures thrown && frameOpen ==>
                currentImage == calls.image && imagesInFlight == old(imagesInFlight)[currentImage := frames[frameIndex].inFlight]
                && !recordingOpen && !acquiredWaitConsumed
      ensures r.Ok? && r.value.Some? <==>
                && !old(frameOpen) && !old(Blocked()) && calls.waited && calls.outcome.ImageReady? && calls.image < |framebuffers|
                && (old(imagesInFlight)[calls.image] == NULL || calls.imageWaited)
      ensures r.Ok? && r.value.Some? ==>
                var image := calls.image;
                && frameOpen && currentImage == image && r.value.value == AcquiredFrame(framebuffers[image], image)
                && (recreated ==> framebuffers[image] != NULL)
                && imagesInFlight == old(imagesInFlight)[image := frames[frameIndex].inFlight]
                && open == Some(Open(frameIndex, image, Acquired(false)))
                && !recordingOpen && !acquiredWaitConsumed && resizeRequired == old(resizeRequired)
                && frameIndex !in device.pending && forall s | s in device.pending :: device.pending[s].image != image
      ensures !terminal && !(r.Ok? && r.value.Some?) ==>
                && unchanged(`imagesInFlight, `currentImage, `frameOpen, `recordingOpen, `acquiredWaitConsumed, `open)
      ensures r == Ok(None) <==> !old(frameOpen) && (old(suspended || resizeRequired) || (images.Some? && calls.waited && calls.outcome.OutOfDate?))
      ensures resizeRequired <==> old(resizeRequired) || (r == Ok(None) && !old(Blocked()))
      ensures old(frameOpen) ==> !terminal
    {
      hide Sound, NothingLeaked, SameHandles, Progressed, Waitable, Retire, Present, WaitForFence, AfterAcquire;
      thrown := false;
      if frameOpen { return Err, false; }
      if suspended || resizeRequired { return Ok(None), false; }
      if images.None? { return Err, false; }
      SoundLengths(device, frames, renderFinished, imagesInFlight, open);
      var sync := frames[frameIndex];
      FenceWaitFreesSlot(device, frames, renderFinished, imagesInFlight, frameIndex);
      if !calls.waited { return Err, false; }
      ghost var before := device;
      device := WaitForFence(device, sync.inFlight);
      SameHandlesLeakNothing(before, device, frames, renderFinished);
      GpuRuns();
      if calls.outcome.OutOfDate? {
        resizeRequired := true;
        return Ok(None), false;
      }
      if calls.outcome.AcquireError? { return Err, false; }
      if calls.image >= |framebuffers| {
        thrown := OpenUndrawable(calls.image, calls.imageWaited);
        return Err, thrown;
      }
      r := OpenAcquired(calls.image, calls.imageWaited);
    }

    /** The acquire succeeded, but there is no framebuffer: unless the image has no entry either, the flags are set before the framebuffer is looked up. */
    method OpenUndrawable(image: nat, waited: bool) returns (thrown: bool)
      requires Valid() && !frameOpen && image >= |framebuffers| && frameIndex !in device.pending
      modifies `imagesInFlight, `currentImage, `frameOpen, `recordingOpen, `acquiredWaitConsumed, `terminal
      ensures terminal
      ensures thrown <==> image >= |old(imagesInFlight)| || old(imagesInFlight)[image] == NULL || waited
      ensures frameOpen <==> thrown && image < |old(imagesInFlight)|
      ensures frameOpen ==> currentImage == image && imagesInFlight == old(imagesInFlight)[image := frames[frameIndex].inFlight]
      ensures frameOpen ==> !recordingOpen && !acquiredWaitConsumed
      ensures !frameOpen ==> imagesInFlight == old(imagesInFlight) && currentImage == old(currentImage)
    {
      hide Sound, NothingLeaked, Waitable;
      terminal := true;
      if image >= |imagesInFlight| { return true; }
      SoundLengths(device, frames, renderFinished, imagesInFlight, open);
      ImageWaitTerminates(device, frames, renderFinished, imagesInFlight, image);
      if imagesInFlight[image] != NULL && !waited { return false; }
      imagesInFlight := imagesInFlight[image := frames[frameIndex].inFlight];
      currentImage := image;
      frameOpen, recordingOpen, acquiredWaitConsumed := true, false, false;
      thrown := true;
    }

    /** The acquire succeeded: the image's previous user, if it is named, is waited for. */
    method OpenAcquired(image: nat, waited: bool) returns (r: Result<Option<AcquiredFrame>>)
      requires Valid() && !frameOpen && image < |framebuffers| && frameIndex !in device.pending
      modifies `device, `imagesInFlight, `currentImage, `frameOpen, `recordingOpen, `acquiredWaitConsumed, `open, `terminal
      ensures image < |old(imagesInFlight)| && (terminal <==> old(imagesInFlight)[image] != NULL && !waited)
      ensures terminal ==> r.Err?
      ensures !terminal ==> Valid() && r == Ok(Some(AcquiredFrame(framebuffers[image], image)))
      ensures !terminal ==>
                && frameOpen && currentImage == image && !recordingOpen && !acquiredWaitConsumed
                && imagesInFlight == old(imagesInFlight)[image := frames[frameIndex].inFlight]
                && open == Some(Open(frameIndex, image, Acquired(false)))
                && frameIndex !in device.pending && forall s | s in device.pending :: device.pending[s].image != image
    {
      hide Sound, NothingLeaked, Waitable;
      SoundLengths(device, frames, renderFinished, imagesInFlight, open);
      ImageWaitTerminates(device, frames, renderFinished, imagesInFlight, image);
      if imagesInFlight[image] != NULL && !waited {
        terminal := true;
        return Err;
      }
      TakeImage(image);
      r := Ok(Some(AcquiredFrame(framebuffers[image], image)));
    }

    method TakeImage(image: nat)
      requires Valid() && !frameOpen && image < |framebuffers| && frameIndex !in device.pending
      requires image < |imagesInFlight| && (imagesInFlight[image] == NULL || Waitable(device, imagesInFlight[image]))
      modifies `device, `imagesInFlight, `currentImage, `frameOpen, `recordingOpen, `acquiredWaitConsumed, `open
      ensures Valid() && frameOpen && currentImage == image && !recordingOpen && !acquiredWaitConsumed
      ensures imagesInFlight == old(imagesInFlight)[image := frames[frameIndex].inFlight]
      ensures open == Some(Open(frameIndex, image, Acquired(false)))
      ensures frameIndex !in device.pending && forall s | s in device.pending :: device.pending[s].image != image
    {
      hide Sound, NothingLeaked, SameHandles, Progressed, Waitable, Retire, Present, WaitForFence, AfterAcquire, MayAcquire, Blocked;
      SoundLengths(device, frames, renderFinished, imagesInFlight, open);
      var sync := frames[frameIndex];
      assert renderFinished[image] in renderFinished;
      AcquireOpensFrame(device, frames, renderFinished, imagesInFlight, frameIndex, image);
      ghost var before := device;
      AcquireKeepsHandles(device, sync, renderFinished, imagesInFlight, image);
      device := AfterAcquire(device, sync, renderFinished, imagesInFlight, image);
      imagesInFlight := imagesInFlight[image := sync.inFlight];
      SameHandlesLeakNothing(before, device, frames, renderFinished);
      open := Some(Open(frameIndex, image, Acquired(false)));
      OpenImageIsFree(device, frames, renderFinished, imagesInFlight, open.value);
      currentImage := image;
      frameOpen, recordingOpen, acquiredWaitConsumed := true, false, false;
    }

    /** The slot's fence is reset and its command buffer recorded again only when nothing pending uses them. */
    method BeginFrame(calls: BeginCalls) returns (r: Result<Option<Frame>>, thrown: bool)
      requires Valid()
      modifies this
      ensures terminal ==> r.Err?
      ensures !terminal ==> Valid() && !thrown && recreated == old(recreated)
      ensures thrown ==> !old(frameOpen) && !old(Blocked()) && old(images).Some? && calls.acquire.image >= |old(framebuffers)|
      ensures r.Ok? && r.value.Some? <==>
                && !old(frameOpen) && !old(Blocked()) && calls.acquire.waited && calls.acquire.outcome.ImageReady?
                && calls.acquire.image < |old(framebuffers)|
                && (old(imagesInFlight)[calls.acquire.image] == NULL || calls.acquire.imageWaited) && calls.reset && calls.began
      ensures r == Ok(None) <==>
                !old(frameOpen) && (old(Blocked()) || (old(images).Some? && calls.acquire.waited && calls.acquire.outcome.OutOfDate?))
      ensures old(framebuffers) == [] && !terminal ==> unchanged(`images, `framebuffers, `renderFinished) && (r.Err? ==> Blocked() == old(Blocked()))
      ensures r.Ok? && r.value.Some? ==>
                && frameOpen && recordingOpen && frameIndex == old(frameIndex) && currentImage == calls.acquire.image
                && open == Some(Open(frameIndex, currentImage, Acquired(true)))
                && currentImage < |framebuffers| && r.value.value == Frame(frameIndex, framebuffers[currentImage], currentImage)
                && frameIndex !in device.pending
      ensures r == Ok(None) ==> !frameOpen && Blocked()
      ensures r.Err? && !terminal && frameOpen && !old(frameOpen) ==> open.value.phase.Acquired? && !recordingOpen
      ensures !terminal && old(resizeRequired) ==> resizeRequired
    {
      hide Sound, NothingLeaked, SameHandles, Quiet;
      var acquired;
      acquired, thrown := AcquireFrame(calls.acquire);
      if acquired.Err? { return Err, thrown; }
      if acquired.value.None? { return Ok(None), false; }
      r := StartRecording(acquired.value.value, calls);
    }

    /** The fence is reset and the command buffer begun; a failure abandons the frame. */
    method StartRecording(acquired: AcquiredFrame, calls: BeginCalls) returns (r: Result<Option<Frame>>)
      requires Valid() && IsCurrent(acquired) && !recordingOpen && frameIndex !in device.pending
      requires open == Some(Open(frameIndex, currentImage, Acquired(false)))
      modifies this
      ensures terminal ==> r.Err?
      ensures !terminal ==> Valid() && recreated == old(recreated) && (old(resizeRequired) ==> resizeRequired)
      ensures r.Ok? <==> calls.reset && calls.began
      ensures r.Ok? ==>
                && frameOpen && recordingOpen && frameIndex == old(frameIndex)
                && unchanged(`framebuffers, `currentImage) && open == Some(Open(frameIndex, currentImage, Acquired(true)))
                && r.value == Some(Frame(frameIndex, acquired.framebuffer, acquired.image))
                && frameIndex !in device.pending
      ensures r.Err? && !terminal && frameOpen ==> open.Some? && open.value.phase.Acquired? && !recordingOpen
    {
      hide Sound, NothingLeaked, SameHandles, Quiet, Intact, Drawable;
      SoundLengths(device, frames, renderFinished, imagesInFlight, open);
      if !calls.reset {
        var _ := AbandonFrame(acquired, AcquiredOnly, calls.abandon);
        return Err;
      }
      ghost var before := device;
      ResetKeepsSound(device, frames, renderFinished, imagesInFlight, open.value);
      device := ResetFence(device, frames[frameIndex].inFlight);
      SameHandlesLeakNothing(before, device, frames, renderFinished);
      open := Some(Open(frameIndex, currentImage, Acquired(true)));
      assert MayResetCommandBuffer(device, frameIndex);
      if !calls.began {
        var _ := AbandonFrame(acquired, AcquiredOnly, calls.abandon);
        return Err;
      }
      recordingOpen := true;
      r := Ok(Some(Frame(frameIndex, acquired.framebuffer, acquired.image)));
    }

    predicate IsCurrent(drawn: AcquiredFrame)
      reads this
    {
      frameOpen && images.Some? && drawn.image == currentImage && currentImage < |framebuffers|
      && drawn.framebuffer == framebuffers[currentImage]
    }

    predicate IsCurrentFrame(drawn: Frame)
      reads this
    {
      drawn.slot == frameIndex && IsCurrent(AcquiredFrame(drawn.framebuffer, drawn.image))
    }

    /** What is drawn on is the open frame: its slot's command buffer, its image and that image's framebuffer. */
    lemma CurrentIsOpen(drawn: Frame)
      requires Valid()
      ensures IsCurrent(AcquiredFrame(drawn.framebuffer, drawn.image)) <==>
              open.Some? && drawn.image == open.value.image && drawn.image < |framebuffers| && drawn.framebuffer == framebuffers[drawn.image]
      ensures IsCurrentFrame(drawn) <==> IsCurrent(AcquiredFrame(drawn.framebuffer, drawn.image)) && drawn.slot == open.value.slot
    {
      hide NothingLeaked;
    }

    method FinishFrameRecording(drawn: Frame, ended: bool) returns (ok: bool)
      requires Valid()
      modifies `recordingOpen
      ensures Valid()
      ensures ok <==> old(recordingOpen) && IsCurrentFrame(drawn) && ended
      ensures recordingOpen <==> old(recordingOpen) && !ok
    {
      if !IsCurrentFrame(drawn) || !recordingOpen { return false; }
      ok := ended;
      if ok { recordingOpen := false; }
    }

    /** The application's own submission of an open frame: one submission, with the fence reset by it or by BeginFrame. */
    method CallerSubmits(reset: bool)
      requires Valid() && open.Some? && open.value.phase == Acquired(reset) && !recordingOpen
      modifies `device, `open
      ensures Valid() && open == Some(Open(frameIndex, currentImage, Submitted))
    {
      hide Sound, NothingLeaked, SameHandles;
      SoundLengths(device, frames, renderFinished, imagesInFlight, open);
      ghost var before := device;
      if !reset {
        ResetKeepsSound(device, frames, renderFinished, imagesInFlight, open.value);
        device := ResetFence(device, frames[frameIndex].inFlight);
        SameHandlesLeakNothing(before, device, frames, renderFinished);
        open := Some(Open(frameIndex, currentImage, Acquired(true)));
      }
      SubmitFrame();
    }

    /** Submission with the acquire wait, the render_finished signal and the slot's fence. */
    method SubmitFrame()
      requires Valid() && open.Some? && open.value.phase == Acquired(true) && !recordingOpen
      modifies `device, `open
      ensures Valid() && open == Some(Open(frameIndex, currentImage, Submitted))
    {
      hide Sound, NothingLeaked, SameHandles;
      SoundLengths(device, frames, renderFinished, imagesInFlight, open);
      ghost var before := device;
      SubmitKeepsSound(device, frames, renderFinished, imagesInFlight, open.value);
      device := Submit(device, frameIndex, currentImage, frames[frameIndex].imageAvailable, renderFinished[currentImage],
                       frames[frameIndex].inFlight);
      SameHandlesLeakNothing(before, device, frames, renderFinished);
      open := Some(Open(frameIndex, currentImage, Submitted));
    }

    /** Presents a submitted frame and moves on to the other slot; a failure leaves the frame open, to be abandoned. */
    method PresentSubmitted(drawn: AcquiredFrame, outcome: PresentOutcome) returns (r: Result<Handle>)
      requires Valid() && (open.Some? ==> open.value.phase == Submitted || recordingOpen || !IsCurrent(drawn))
      modifies `device, `open, `frameIndex, `frameOpen, `recordingOpen, `acquiredWaitConsumed, `resizeRequired
      ensures Valid()
      ensures r.Ok? <==> old(IsCurrent(drawn)) && !old(recordingOpen) && !outcome.PresentError?
      ensures r.Ok? ==>
                && frameIndex == (old(frameIndex) + 1) % FRAMES && !frameOpen && !recordingOpen
                && !acquiredWaitConsumed && (resizeRequired <==> old(resizeRequired) || outcome.Stale?)
                && old(frameIndex) < |frames| && r.value == frames[old(frameIndex)].inFlight
      ensures r.Err? ==>
                && unchanged(`frameIndex, `frameOpen, `recordingOpen, `acquiredWaitConsumed, `resizeRequired)
                && open == if old(IsCurrent(drawn)) && !old(recordingOpen) then Some(old(open).value.(phase := PresentFailed)) else old(open)
      ensures old(IsCurrent(drawn)) && !old(recordingOpen) && (outcome.PresentError? ==> outcome.effect) ==>
                currentImage < |renderFinished| && device == PresentImage(old(device), currentImage, renderFinished[currentImage])
      ensures !old(IsCurrent(drawn)) || old(recordingOpen) || (outcome.PresentError? && !outcome.effect) ==> device == old(device)
    {
      hide Sound, NothingLeaked, SameHandles;
      if !IsCurrent(drawn) || recordingOpen { return Err; }
      SoundLengths(device, frames, renderFinished, imagesInFlight, open);
      PresentKeepsMachine(device, frames, renderFinished, imagesInFlight, open.value);
      ghost var before := device;
      var presented := PresentImage(device, currentImage, renderFinished[currentImage]);
      SameHandlesLeakNothing(before, presented, frames, renderFinished);
      if outcome.PresentError? {
        if outcome.effect { device := presented; }
        open := Some(open.value.(phase := PresentFailed));
        return Err;
      }
      device := presented;
      if outcome.Stale? { resizeRequired := true; }
      r := NextFrame();
    }

    /** The presented frame is closed and the other slot is next. */
    method NextFrame() returns (r: Result<Handle>)
      requires Sound(device, frames, renderFinished, imagesInFlight, None) && NothingLeaked(device, frames, renderFinished)
      requires !terminal && frameIndex < 2 && Drawable() && (Intact() <==> recreated)
      modifies `open, `frameIndex, `frameOpen, `recordingOpen, `acquiredWaitConsumed
      ensures Valid() && frameIndex == (old(frameIndex) + 1) % FRAMES && !frameOpen && !recordingOpen && !acquiredWaitConsumed
      ensures old(frameIndex) < |frames| && r == Ok(frames[old(frameIndex)].inFlight)
    {
      hide Sound, NothingLeaked;
      SoundLengths(device, frames, renderFinished, imagesInFlight, None);
      r := Ok(frames[frameIndex].inFlight);
      frameIndex := (frameIndex + 1) % FRAMES;
      frameOpen, recordingOpen, acquiredWaitConsumed := false, false, false;
      open := None;
    }

    /** Ends recording if it is still open, submits and presents. */
    method EndFrame(drawn: Frame, calls: EndCalls) returns (r: Result<Handle>)
      requires Valid() && (open.Some? && IsCurrentFrame(drawn) ==> open.value.phase == Acquired(true))
      modifies this
      ensures Valid()
      ensures r.Ok? <==> old(IsCurrentFrame(drawn)) && (old(recordingOpen) ==> calls.ended) && calls.submitted && !calls.presented.PresentError?
      ensures r.Ok? ==>
                && !frameOpen && !recordingOpen && frameIndex == (old(frameIndex) + 1) % FRAMES
                && old(frameIndex) < |old(frames)| && r.value == old(frames[frameIndex].inFlight)
                && (resizeRequired <==> old(resizeRequired) || calls.presented.Stale?)
      ensures r.Err? ==> frameIndex == old(frameIndex) && frameOpen == old(frameOpen) && resizeRequired == old(resizeRequired)
      ensures recordingOpen <==> old(recordingOpen) && !(old(IsCurrentFrame(drawn)) && calls.ended)
      ensures unchanged(`frames, `renderFinished, `imagesInFlight, `framebuffers, `images, `recreated, `currentImage, `suspended, `width, `height)
    {
      hide Sound, NothingLeaked, SameHandles;
      if recordingOpen {
        var finished := FinishFrameRecording(drawn, calls.ended);
        if !finished { return Err; }
      }
      if !IsCurrentFrame(drawn) { return Err; }
      if !calls.submitted { return Err; }
      SoundLengths(device, frames, renderFinished, imagesInFlight, open);
      SubmitFrame();
      GpuRuns();
      r := PresentSubmitted(AcquiredFrame(drawn.framebuffer, drawn.image), calls.presented);
    }

    /** After a stale present no frame is acquired, at whatever the engine answers, until a resize; and a resize to the same size recreates. */
    method StaleNeedsResize(drawn: Frame, calls: EndCalls, next: AcquireCalls, recreation: Calls)
      returns (presented: Result<Handle>, acquired: Result<Option<AcquiredFrame>>, resized: bool)
      requires Valid() && IsCurrentFrame(drawn) && open.value.phase == Acquired(true) && width > 0 && height > 0
      requires calls.ended && calls.submitted && calls.presented.Stale?
      modifies this
      ensures Valid() && presented.Ok? && acquired == Ok(None) && !frameOpen
      ensures width == old(width) && height == old(height)
      ensures (resized <==> Succeeds(recreation, old(frames))) && if resized then Intact() && !Blocked() else Blocked()
    {
      hide Sound, NothingLeaked;
      presented := EndFrame(drawn, calls);
      var thrown;
      acquired, thrown := AcquireFrame(next);
      resized := Resize(width, height, recreation);
    }

    /** Submits an empty render pass on the image that only consumes the acquired semaphore, and waits for it. */
    method ConsumeAcquiredImageWait(calls: ConsumeCalls) returns (ok: bool)
      requires Valid() && Quiet(device) && open.Some? && open.value.phase.Acquired? && !recordingOpen && !acquiredWaitConsumed
      modifies `device, `open, `acquiredWaitConsumed, `terminal
      ensures ok <==> calls.recorded && calls.fence != NULL && calls.fence !in old(device).fences && calls.submitted && calls.waited
      ensures terminal <==> calls.recorded && calls.fence != NULL && calls.fence !in old(device).fences && calls.submitted && !calls.waited
      ensures !terminal ==> Valid() && Quiet(device) && device.semaphores.Keys == old(device).semaphores.Keys && device.fences.Keys == old(device).fences.Keys
      ensures if ok then open == Some(Open(frameIndex, currentImage, Consumed)) && acquiredWaitConsumed
              else open == old(open) && !acquiredWaitConsumed
    {
      hide Sound, NothingLeaked, SameHandles, Waitable, WaitForFence;
      if !calls.recorded { return false; }
      var consumed := calls.fence;
      if consumed == NULL || consumed in device.fences { return false; }
      SoundLengths(device, frames, renderFinished, imagesInFlight, open);
      ConsumeOnlyWaits(device, frames, renderFinished, imagesInFlight, open.value, consumed);
      ConsumedIsSound(device, frames, renderFinished, imagesInFlight, open.value);
      assert MayResetCommandBuffer(device, frameIndex);
      ghost var before := device;
      var wait := frames[frameIndex].imageAvailable;
      var made := CreateFence(device, consumed, false);
      if !calls.submitted {
        device := DestroyFence(made, consumed);
        return false;
      }
      var queued := SubmitWait(made, frameIndex, currentImage, wait, consumed);
      if !calls.waited {
        terminal := true;
        return false;
      }
      device := DestroyFence(WaitForFence(queued, consumed), consumed);
      SameHandlesLeakNothing(before, device, frames, renderFinished);
      open := Some(open.value.(phase := Consumed));
      acquiredWaitConsumed := true;
      ok := true;
    }

    /** All three creations succeeded. */
    predicate AllNew(d: Device, calls: RenewCalls) {
      && calls.imageAvailable != NULL && calls.imageAvailable !in d.semaphores
      && calls.rendered != NULL && calls.rendered !in d.semaphores && calls.rendered != calls.imageAvailable
      && calls.inFlight != NULL && calls.inFlight !in d.fences
    }

    /**
     New sync objects for the abandoned slot and image; the old ones are
     destroyed while nothing is queued, and no entry keeps the old fence.
     */
    method ReplaceAbandonedFrameSync(calls: RenewCalls) returns (ok: bool)
      requires Valid() && Quiet(device) && open.Some? && !open.value.phase.Acquired?
      modifies `device, `frames, `renderFinished, `imagesInFlight
      ensures Quiet(device) && (ok <==> AllNew(old(device), calls))
      ensures !ok ==> unchanged(`frames, `renderFinished, `imagesInFlight) && device == old(device)
      ensures ok ==>
                && Whole(ReleaseImages(device), frames, renderFinished, imagesInFlight) && device.held == old(device.held)
                && |renderFinished| == |old(renderFinished)| && NULL !in renderFinished && old(|frames|) == 2 && frameIndex < 2
                && frames == old(frames)[frameIndex := FrameSync(calls.imageAvailable, calls.inFlight)]
                && old(currentImage) < |old(renderFinished)| && renderFinished == old(renderFinished)[currentImage := calls.rendered]
                && imagesInFlight == WithoutFence(old(imagesInFlight), old(frames[frameIndex].inFlight))
    {
      hide Sound, NothingLeaked, SameHandles, Waitable, WaitForFence, Replaceable, ReplaceSync;
      SoundLengths(device, frames, renderFinished, imagesInFlight, open);
      var RenewCalls(imageAvailable, rendered, inFlight) := calls;
      if imageAvailable == NULL || imageAvailable in device.semaphores { return false; }
      var one := CreateSemaphore(device, imageAvailable);
      if rendered == NULL || rendered in one.semaphores {
        assert DestroySemaphore(one, imageAvailable).semaphores == device.semaphores;
        return false;
      }
      if inFlight == NULL || inFlight in device.fences {
        var two := CreateSemaphore(one, rendered);
        assert DestroySemaphore(DestroySemaphore(two, imageAvailable), rendered).semaphores == device.semaphores;
        return false;
      }
      var sync := FrameSync(imageAvailable, inFlight);
      IdleFrameIsReplaceable(device, frames, renderFinished, imagesInFlight, open.value);
      ReplaceKeepsSound(device, frames, renderFinished, imagesInFlight, open.value, sync, rendered);
      ReplaceLeaksNothing(device, frames, renderFinished, open.value, sync, rendered);
      imagesInFlight := WithoutFence(imagesInFlight, frames[frameIndex].inFlight);
      device := ReplaceSync(device, frames[frameIndex], renderFinished[currentImage], sync, rendered);
      frames := frames[frameIndex := sync];
      renderFinished := renderFinished[currentImage := rendered];
      SameHandlesLeakNothing(device, device.(held := {}), frames, renderFinished);
      ok := true;
    }

    method DestroySwapchainSync()
      requires Whole(device, frames, renderFinished, imagesInFlight)
      modifies `device, `renderFinished, `imagesInFlight
      ensures Whole(device, frames, renderFinished, imagesInFlight) && renderFinished == [] && imagesInFlight == []
    {
      hide Whole, Unused;
      ghost var left := renderFinished;     // the handles still live, NULL where destroyed
      for i := 0 to |renderFinished|
        invariant renderFinished == old(renderFinished) && imagesInFlight == old(imagesInFlight) && |left| == |renderFinished|
        invariant forall j | 0 <= j < i :: left[j] == NULL
        invariant forall j | i <= j < |left| :: left[j] == renderFinished[j]
        invariant Whole(device, frames, left, imagesInFlight)
      {
        if renderFinished[i] != NULL {
          DestroyKeepsWhole(device, frames, left, imagesInFlight, i);
          device := DestroySemaphore(device, renderFinished[i]);
          left := left[i := NULL];
        }
      }
      EmptyKeepsWhole(device, frames, left, imagesInFlight, 0);
      renderFinished := [];
      imagesInFlight := [];
      assert Nulls(0) == [];
    }

    method CreateSwapchainSync(made: nat -> Handle) returns (ok: bool)
      requires Whole(device, frames, renderFinished, imagesInFlight)
      modifies `device, `renderFinished, `imagesInFlight
      ensures Whole(device, frames, renderFinished, imagesInFlight)
      ensures ok <==> images.Some? && AllMade(frames, made, images.value)
      ensures images.Some? ==> |renderFinished| == images.value && imagesInFlight == Nulls(images.value) && (ok <==> NULL !in renderFinished)
      ensures ok ==> forall i | 0 <= i < images.value :: renderFinished[i] == made(i)
      ensures images.None? ==> unchanged(`renderFinished)
    {
      hide Whole;
      if images.None? { return false; }
      DestroySwapchainSync();
      EmptyKeepsWhole(device, frames, renderFinished, imagesInFlight, images.value);
      renderFinished := Nulls(images.value);
      imagesInFlight := Nulls(images.value);
      for i := 0 to |renderFinished|
        invariant |renderFinished| == images.value && imagesInFlight == Nulls(images.value)
        invariant AllMade(frames, made, i) && forall j | 0 <= j < i :: renderFinished[j] == made(j)
        invariant forall j | i <= j < |renderFinished| :: renderFinished[j] == NULL
        invariant Whole(device, frames, renderFinished, imagesInFlight)
      {
        var so := MakeSemaphore(i, made(i));
        if !so {
          assert renderFinished[i] == NULL;
          return false;
        }
      }
      ok := true;
    }

    method MakeSemaphore(i: nat, made: Handle) returns (ok: bool)
      requires Whole(device, frames, renderFinished, imagesInFlight) && i < |renderFinished| && renderFinished[i] == NULL
      modifies `device, `renderFinished
      ensures Whole(device, frames, renderFinished, imagesInFlight) && |frames| == 2
      ensures ok <==> made != NULL && made != frames[0].imageAvailable && made != frames[1].imageAvailable && made !in old(renderFinished)
      ensures if ok then renderFinished == old(renderFinished)[i := made] else unchanged(this)
    {
      hide Whole;
      LiveSemaphores(device, frames, renderFinished, imagesInFlight);
      if made == NULL || made in device.semaphores { return false; }
      CreateKeepsWhole(device, frames, renderFinished, imagesInFlight, i, made);
      device := CreateSemaphore(device, made);
      renderFinished := renderFinished[i := made];
      ok := true;
    }

    method CreateFramebuffers(made: nat -> Handle) returns (ok: bool)
      modifies `framebuffers
      ensures images.None? ==> !ok && unchanged(`framebuffers)
      ensures images.Some? ==> |framebuffers| == images.value && (ok <==> NULL !in framebuffers)
      ensures images.Some? ==> (ok <==> forall i | 0 <= i < images.value :: made(i) != NULL)
      ensures ok ==> forall i | 0 <= i < images.value :: framebuffers[i] == made(i)
    {
      if images.None? { return false; }
      framebuffers := Nulls(images.value);
      for i := 0 to |framebuffers|
        invariant |framebuffers| == images.value
        invariant forall j | 0 <= j < i :: framebuffers[j] == made(j) && made(j) != NULL
        invariant forall j | i <= j < |framebuffers| :: framebuffers[j] == NULL
      {
        if made(i) == NULL {
          assert framebuffers[i] == NULL;
          return false;
        }
        framebuffers := framebuffers[i := made(i)];
      }
      ok := true;
    }

    method CleanupSwapchain()
      requires Quiet(device) && Whole(ReleaseImages(device), frames, renderFinished, imagesInFlight)
      modifies `device, `renderFinished, `imagesInFlight, `framebuffers, `images
      ensures Whole(device, frames, renderFinished, imagesInFlight) && renderFinished == [] && imagesInFlight == []
      ensures framebuffers == [] && images == None
    {
      device := ReleaseImages(device);      // the swapchain goes last; nothing below looks at its images
      DestroySwapchainSync();
      framebuffers := [];
      images := None;
    }

    /**
     Recovers from an open frame that will not be presented. A frame without a
     submission is presented cleared, after its acquire wait is consumed.
     */
    method AbandonFrame(drawn: AcquiredFrame, state: AbortState, calls: AbandonCalls) returns (ok: bool)
      requires Valid()
      requires open.Some? ==> if state == AcquiredOnly then open.value.phase.Acquired? || open.value.phase.Consumed?
                              else open.value.phase.Submitted? || open.value.phase.PresentFailed?
      modifies this
      ensures !terminal ==> Valid()
      ensures var consumable := calls.consume.recorded && calls.consume.fence != NULL && calls.consume.fence !in old(device).fences && calls.consume.submitted;
              var consumes := state == AcquiredOnly && !old(acquiredWaitConsumed);
              terminal <==>
                && old(IsCurrent(drawn)) && !old(recordingOpen)
                && (|| !calls.idle || (consumes && consumable && !calls.consume.waited)
                    || (state == AcquiredOnly && (consumes ==> consumable) && !(calls.idleAgain && AllNew(old(device), calls.renew))))
      ensures ok <==>
                && old(IsCurrent(drawn)) && !old(recordingOpen) && calls.idle && AllNew(old(device), calls.renew)
                && (state == AcquiredOnly && !old(acquiredWaitConsumed) ==>
                      && calls.consume.recorded && calls.consume.fence != NULL && calls.consume.fence !in old(device).fences
                      && calls.consume.submitted && calls.consume.waited)
                && (state == AcquiredOnly ==> calls.idleAgain && !calls.presented.PresentError?)
      ensures ok ==> !frameOpen && Quiet(device) && (images.Some? <==> state == AcquiredOnly && calls.presented.Presented?)
      ensures recreated == old(recreated) && frameIndex == old(frameIndex) && width == old(width) && height == old(height) && suspended == old(suspended)
      ensures !terminal && frameOpen ==> !ok && open.Some? && unchanged(`frames, `renderFinished, `imagesInFlight, `framebuffers, `images)
      ensures !terminal && !frameOpen && old(frameOpen) ==>
                Quiet(device) && !acquiredWaitConsumed && if images.Some? then unchanged(`images, `framebuffers, `resizeRequired) else framebuffers == [] && resizeRequired
      ensures !terminal && old(frameOpen) && frameOpen ==> open == old(open) && unchanged(`recordingOpen, `resizeRequired)
      ensures !terminal && !old(frameOpen) ==> unchanged(this)
    {
      hide Sound, NothingLeaked, SameHandles, WaitIdle, WithoutFence, Quiet;
      if !IsCurrent(drawn) || recordingOpen { return false; }
      if !calls.idle {
        terminal := true;
        return false;
      }
      IdleDevice();
      if state == AcquiredOnly && !acquiredWaitConsumed {
        var consumed := ConsumeAcquiredImageWait(calls.consume);
        if !consumed { return false; }
      }
      if state == FinalSubmitCompleted {
        var replaced := ReplaceAbandonedFrameSync(calls.renew);
        if !replaced { return false; }
        CloseAbandoned(false);
        return true;
      }
      ok := PresentAbandoned(calls);
    }

    /** A wait for the device that succeeded. */
    method IdleDevice()
      requires Valid()
      modifies `device
      ensures Valid() && Quiet(device) && device.held == old(device.held) && device.semaphores.Keys == old(device).semaphores.Keys && device.fences.Keys == old(device).fences.Keys
    {
      hide Sound, NothingLeaked, WaitIdle, Quiet;
      SoundLengths(device, frames, renderFinished, imagesInFlight, open);
      IdleKeepsSound(device, frames, renderFinished, imagesInFlight, open);
      SameHandlesLeakNothing(device, WaitIdle(device), frames, renderFinished);
      device := WaitIdle(device);
    }

    /** The frame is closed with its new sync objects in place; the swapchain is kept only if it presented the image. */
    method CloseAbandoned(keep: bool)
      requires !terminal && frameIndex < 2 && !recordingOpen && Drawable() && (Intact() <==> recreated) && Quiet(device)
      requires Whole(ReleaseImages(device), frames, renderFinished, imagesInFlight) && (keep ==> device.held == {})
      modifies `device, `renderFinished, `imagesInFlight, `framebuffers, `images, `resizeRequired, `frameOpen, `acquiredWaitConsumed, `open
      ensures Valid() && !frameOpen && !acquiredWaitConsumed && Quiet(device)
      ensures if keep then unchanged(`images, `framebuffers, `resizeRequired) else resizeRequired && images == None && framebuffers == []
    {
      hide Sound, NothingLeaked;
      frameOpen, acquiredWaitConsumed := false, false;
      open := None;
      if keep {
        assert ReleaseImages(device) == device;
        return;
      }
      CleanupSwapchain();
      resizeRequired := true;
    }

    /** The rest of an abandonment: the cleared image is presented without a wait. */
    method PresentAbandoned(calls: AbandonCalls) returns (ok: bool)
      requires Valid() && Quiet(device) && open.Some? && open.value.phase == Consumed && !recordingOpen
      modifies this
      ensures ok <==> calls.idleAgain && AllNew(old(device), calls.renew) && !calls.presented.PresentError?
      ensures terminal <==> !(calls.idleAgain && AllNew(old(device), calls.renew))
      ensures !terminal ==>
                && Valid() && !frameOpen && !acquiredWaitConsumed && Quiet(device) && (images.Some? <==> calls.presented.Presented?)
                && if images.Some? then unchanged(`images, `framebuffers, `resizeRequired) else framebuffers == [] && resizeRequired
      ensures recreated == old(recreated) && frameIndex == old(frameIndex) && width == old(width) && height == old(height) && suspended == old(suspended)
    {
      hide Sound, NothingLeaked, SameHandles, WithoutFence, Quiet;
      PresentCleared(calls.presented);
      if !calls.idleAgain {
        terminal := true;
        return false;
      }
      IdleDevice();
      var replaced := ReplaceAbandonedFrameSync(calls.renew);
      if !replaced {
        terminal := true;
        return false;
      }
      CloseAbandoned(calls.presented.Presented?);
      ok := !calls.presented.PresentError?;
    }

    /** vkQueuePresentKHR of the cleared image; an error may or may not have taken effect. */
    method PresentCleared(outcome: PresentOutcome)
      requires Valid() && open.Some? && open.value.phase == Consumed
      modifies `device, `open
      ensures Valid() && open == Some(old(open).value.(phase := Cleared))
      ensures outcome.Presented? ==> device.held == {}
      ensures device.semaphores.Keys == old(device).semaphores.Keys && device.fences.Keys == old(device).fences.Keys
    {
      hide Sound, NothingLeaked, SameHandles;
      SoundLengths(device, frames, renderFinished, imagesInFlight, open);
      ClearKeepsSound(device, frames, renderFinished, imagesInFlight, open.value);
      open := Some(open.value.(phase := Cleared));
      if !(outcome.PresentError? && !outcome.effect) {
        SameHandlesLeakNothing(device, PresentImageNow(device, currentImage), frames, renderFinished);
        device := PresentImageNow(device, currentImage);
      }
    }

    /**
     A new swapchain of the given size. Success leaves the presenter ready. A
     failure leaves the flags as they were, so one after a plain change of size
     leaves acquisition enabled; and unless the wait for the device failed, the
     old framebuffers are gone.
     */
    method RecreateSwapchain(newWidth: nat, newHeight: nat, calls: Calls) returns (ok: bool)
      requires Valid() && !frameOpen
      modifies this
      ensures Valid() && !frameOpen && width == newWidth && height == newHeight && frameIndex == old(frameIndex)
      ensures unchanged(`frames) && recreated == if calls.idle then ok else old(recreated)
      ensures if ok then DrawsAt(newWidth, newHeight) else unchanged(`drawnWidth, `drawnHeight)
      ensures (ok <==> Succeeds(calls, frames)) && (BreaksOff(calls) ==> framebuffers == []) && (ok ==> MadeBy(calls))
      ensures images == if !calls.idle || (old(images).None? && !calls.swapchain) then old(images) else Some(calls.images)
      ensures if ok then calls.idle && Intact() && !Blocked() && imagesInFlight == Nulls(|renderFinished|) && Quiet(device)
              else && suspended == old(suspended) && resizeRequired == old(resizeRequired)
                   && if calls.idle then !Intact() else Intact() == old(Intact())
    {
      hide Sound, NothingLeaked, Quiet, Drawable, Intact;
      width, height := newWidth, newHeight;
      if !calls.idle { return false; }
      ok := IdleAndReplace(calls);
      if !ok { return; }
      suspended, resizeRequired := false, false;
    }

    /** Nothing in flight may still use what is destroyed. */
    method IdleAndReplace(calls: Calls) returns (ok: bool)
      requires Valid() && !frameOpen && calls.idle
      modifies `device, `framebuffers, `renderFinished, `imagesInFlight, `images, `recreated, `drawnWidth, `drawnHeight
      ensures Valid() && Quiet(device) && recreated == ok
      ensures if ok then DrawsAt(width, height) else unchanged(`drawnWidth, `drawnHeight)
      ensures if ok then Intact() && imagesInFlight == Nulls(|renderFinished|) else !Intact()
      ensures (ok <==> Succeeds(calls, frames)) && (BreaksOff(calls) ==> framebuffers == []) && (ok ==> MadeBy(calls))
      ensures images == if old(images).None? && !calls.swapchain then None else Some(calls.images)
    {
      hide Sound, NothingLeaked, Quiet, Drawable, Intact;
      IdleDevice();
      ok := ReplaceSwapchain(calls);
    }

    /** What there was is destroyed, and made again as far as the calls go. */
    method ReplaceSwapchain(calls: Calls) returns (ok: bool)
      requires Valid() && Quiet(device) && !frameOpen && calls.idle
      modifies `device, `framebuffers, `renderFinished, `imagesInFlight, `images, `recreated, `drawnWidth, `drawnHeight
      ensures Valid() && Quiet(device) && recreated == ok
      ensures if ok then DrawsAt(width, height) else unchanged(`drawnWidth, `drawnHeight)
      ensures if ok then Intact() && imagesInFlight == Nulls(|renderFinished|) else !Intact()
      ensures (ok <==> Succeeds(calls, frames)) && (BreaksOff(calls) ==> framebuffers == []) && (ok ==> MadeBy(calls))
      ensures images == if old(images).None? && !calls.swapchain then None else Some(calls.images)
    {
      hide Sound, NothingLeaked, Quiet;
      assert MayDestroyImages(device) && Whole(device, frames, renderFinished, imagesInFlight) by { QuietIsWhole(); }
      framebuffers := [];
      ok := CreateSwapchain(calls);
      if !ok || !calls.depth {
        recreated := false;
        return false;
      }
      ok := CreateFramebuffers(calls.buffers);
      recreated := ok;
      if ok { drawnWidth, drawnHeight := width, height; }
    }

    lemma QuietIsWhole()
      requires Valid() && Quiet(device) && open.None?
      ensures MayDestroyImages(device) && Whole(device, frames, renderFinished, imagesInFlight)
    {
      hide Sound, NothingLeaked;
    }

    /** The swapchain is made, or replaced with some number of images even when that fails, and its sync objects with it. */
    method CreateSwapchain(calls: Calls) returns (ok: bool)
      requires Whole(device, frames, renderFinished, imagesInFlight) && (images.None? ==> renderFinished == [])
      modifies `device, `renderFinished, `imagesInFlight, `images
      ensures Whole(device, frames, renderFinished, imagesInFlight)
      ensures images.None? ==> renderFinished == []
      ensures images == if old(images).None? && !calls.swapchain then None else Some(calls.images)
      ensures ok <==> calls.swapchain && AllMade(frames, calls.semaphores, calls.images)
      ensures ok ==> |renderFinished| == calls.images && forall i | 0 <= i < calls.images :: renderFinished[i] == calls.semaphores(i)
      ensures ok ==> NULL !in renderFinished && imagesInFlight == Nulls(images.value)
    {
      hide Whole;
      if images.None? && !calls.swapchain { return false; }
      images := Some(calls.images);
      if !calls.swapchain { return false; }
      ok := CreateSwapchainSync(calls.semaphores);
    }

    /**
     A zero extent suspends; otherwise the swapchain is recreated unless nothing
     asks for it. A success leaves a presenter that can draw, and at the size
     asked for, except where nothing is done although something is missing: the
     size is the recorded one and no flag is set, but the last recreation had
     failed, or never got past waiting for the device and recorded its size.
     */
    method Resize(newWidth: nat, newHeight: nat, calls: Calls) returns (ok: bool)
      requires Valid()
      modifies this
      ensures Valid() && frameOpen == old(frameOpen) && open == old(open)
      ensures old(frameOpen) ==> !ok && unchanged(this)
      ensures !old(frameOpen) && (newWidth == 0 || newHeight == 0) ==>
                && ok && suspended && resizeRequired
                && unchanged(`device, `frames, `renderFinished, `imagesInFlight, `framebuffers, `images, `width, `height, `recreated, `drawnWidth, `drawnHeight)
      ensures !old(frameOpen) && newWidth > 0 && newHeight > 0 && !old(Blocked()) && newWidth == old(width) && newHeight == old(height) ==>
                ok && unchanged(this)
      ensures !old(frameOpen) && newWidth > 0 && newHeight > 0 && (old(Blocked()) || newWidth != old(width) || newHeight != old(height)) ==>
                && width == newWidth && height == newHeight && recreated == (if calls.idle then ok else old(recreated))
                && (ok <==> calls.idle && calls.swapchain && calls.depth && AllMade(old(frames), calls.semaphores, calls.images)
                            && forall i | 0 <= i < calls.images :: calls.buffers(i) != NULL)
                && (BreaksOff(calls) ==> framebuffers == []) && (ok ==> MadeBy(calls))
                && if ok then calls.idle && Intact() && !Blocked() && DrawsAt(newWidth, newHeight)
                   else unchanged(`drawnWidth, `drawnHeight) && Blocked() == old(Blocked()) && if calls.idle then !Intact() else Intact() == old(Intact())
      ensures ok && !old(frameOpen) && newWidth > 0 && newHeight > 0 ==>
                var untouched := newWidth == old(width) && newHeight == old(height) && !old(Blocked());
                && !Blocked() && (Intact() <==> !(untouched && !old(recreated)))
                && (DrawsAt(newWidth, newHeight) <==> !(untouched && !old(DrawsAt(width, height))))
    {
      hide Sound, NothingLeaked, Quiet;
      if frameOpen { return false; }
      if newWidth == 0 || newHeight == 0 {
        suspended, resizeRequired := true, true;
        return true;
      }
      if !resizeRequired && !suspended && newWidth == width && newHeight == height { return true; }
      ok := RecreateSwapchain(newWidth, newHeight, calls);
    }

    /**
     From every presenter at rest, a resize to another size that breaks off
     leaves it without framebuffers, and asking again for that size reports a
     success that repairs nothing and blocks nothing.
     */
    method ResizeTwice(newWidth: nat, newHeight: nat, calls: Calls, again: Calls) returns (first: bool, second: bool)
      requires Valid() && !frameOpen && !Blocked() && newWidth > 0 && newHeight > 0 && (newWidth != width || newHeight != height)
      requires BreaksOff(calls)
      modifies this
      ensures Valid() && !frameOpen && width == newWidth && height == newHeight
      ensures !first && second && framebuffers == [] && !Intact() && !Blocked()
    {
      hide Sound, NothingLeaked;
      first := Resize(newWidth, newHeight, calls);
      second := Resize(newWidth, newHeight, again);
    }

    /**
     From every presenter that draws at the recorded size, a resize to another
     size whose wait for the device fails records that size, and asking again for
     it reports a success that changes nothing: frames go on at the old size.
     */
    method ResizeUnwaited(newWidth: nat, newHeight: nat, calls: Calls, again: Calls) returns (first: bool, second: bool)
      requires Valid() && !frameOpen && !Blocked() && newWidth > 0 && newHeight > 0 && (newWidth != width || newHeight != height)
      requires Intact() && DrawsAt(width, height) && !calls.idle
      modifies this
      ensures Valid() && !frameOpen && width == newWidth && height == newHeight
      ensures !first && second && Intact() && !Blocked() && DrawsAt(old(width), old(height)) && !DrawsAt(width, height)
    {
      hide Sound, NothingLeaked;
      first := Resize(newWidth, newHeight, calls);
      second := Resize(newWidth, newHeight, again);
    }

    /** A presenter whose init succeeded: both fences signalled, everything idle. */
    constructor (slots: seq<FrameSync>, rendered: seq<Handle>, buffers: seq<Handle>, initialWidth: nat, initialHeight: nat)
      requires |slots| == FRAMES && |buffers| == |rendered| > 0 && initialWidth > 0 && initialHeight > 0
      requires slots[0].inFlight != slots[1].inFlight && NULL !in rendered && NULL !in buffers
      requires slots[0].inFlight != NULL && slots[0].imageAvailable != NULL
      requires slots[1].inFlight != NULL && slots[1].imageAvailable != NULL
      requires SemaphoresDistinct(slots, rendered)
      ensures Valid() && Intact() && !Blocked() && !frameOpen && Quiet(device)
      ensures frames == slots && renderFinished == rendered && framebuffers == buffers && frameIndex == 0
      ensures imagesInFlight == Nulls(|rendered|)
      ensures width == initialWidth && height == initialHeight && recreated && DrawsAt(initialWidth, initialHeight)
    {
      frames, renderFinished, framebuffers := slots, rendered, buffers;
      imagesInFlight := Nulls(|rendered|);
      images := Some(|buffers|);
      width, height := initialWidth, initialHeight;
      frameIndex, currentImage := 0, 0;
      resizeRequired, suspended, frameOpen, recordingOpen, acquiredWaitConsumed := false, false, false, false, false;
      var made := (set r | r in rendered) + {slots[0].imageAvailable, slots[1].imageAvailable};
      device := Device(map[], map[slots[0].inFlight := true, slots[1].inFlight := true],
                       map x | x in made :: Idle, {});
      open := None;
      recreated, terminal := true, false;
      drawnWidth, drawnHeight := initialWidth, initialHeight;
    }

    /** The destructor: with no frame open, everything the presenter made is destroyed, each object while unused. */
    method Destroy(idle: bool)
      requires Valid() && !frameOpen
      modifies this
      ensures terminal <==> !idle
      ensures !terminal ==> device == Device(map[], map[], map[], {})
      ensures !terminal ==> frames == [] && renderFinished == [] && imagesInFlight == [] && framebuffers == [] && images == None
    {
      hide Sound, NothingLeaked, Quiet, Whole;
      if !idle {
        terminal := true;
        return;
      }
      IdleDevice();
      QuietIsWhole();
      DestroySwapchainSync();
      DestroyFrames();
      framebuffers := [];
      images := None;
    }

    method DestroyFrames()
      requires Whole(device, frames, [], [])
      modifies `device, `frames
      ensures frames == [] && device == Device(map[], map[], map[], {})
    {
      var first, second := frames[0], frames[1];
      device := DestroySemaphore(DestroyFence(device, first.inFlight), first.imageAvailable);
      device := DestroySemaphore(DestroyFence(device, second.inFlight), second.imageAvailable);
      frames := [];
      assert device.fences == map[] && device.semaphores == map[];
    }
  }

  /**
   The input that fails: a new presenter with two images whose first resize
   finds no depth attachment. The second resize reports success, and no frame
   begins.
   */
  method BrokenAfterResize(calls: BeginCalls) returns (p: Presenter, second: bool, r: Result<Option<Frame>>, thrown: bool)
    ensures second && !(r.Ok? && r.value.Some?)
    ensures !p.terminal ==> p.framebuffers == [] && !p.Intact() && (r.Err? ==> !p.Blocked())
  {
    p := new Presenter([FrameSync(1, 1), FrameSync(2, 2)], [3, 4], [1, 2], 640, 480);
    var first;
    first, second := p.ResizeTwice(800, 600, Answers(true, true, 2, false, i => i + 3, i => i + 1), Answers(true, true, 2, true, i => i + 3, i => i + 1));
    r, thrown := p.BeginFrame(calls);
  }
}
