/**
 The frame machine of src/vkexec_graphics/presenter_frame.cpp, with the sync
 objects of presenter.cpp, against an asynchronous GPU and presentation engine.

 The Vulkan functions of module Gpu carry the valid-usage rules as
 preconditions, so a presenter method verifies only if it breaks none of them
 in any state a run can reach.
 */
module Gpu {
  type Handle = nat
  const NULL: Handle := 0

  /** A binary semaphore: idle, to be signalled with no wait yet, or with its wait still outstanding. */
  datatype Semaphore = Idle | SignalDue(signaller: Party) | WaitDue(waiter: Party)
  datatype Party = Submission(slot: nat) | Presentation

  /** Work submitted with a frame slot's command buffer and not yet retired. */
  datatype Work = Work(image: nat, fence: Handle)

  datatype Device = Device(
    pending: map<nat, Work>,              // by slot: a command buffer has at most one pending submission
    fences: map<Handle, bool>,            // live fences, and whether signalled
    semaphores: map<Handle, Semaphore>,   // live semaphores
    held: set<nat>)                       // images acquired and not presented

  /** The fence is live, and it is signalled or some pending work will signal it. */
  predicate Waitable(d: Device, fence: Handle) {
    fence in d.fences && (d.fences[fence] || exists slot :: slot in d.pending && d.pending[slot].fence == fence)
  }

  /** Work of these slots retires: its fence is signalled, its semaphore waits are over. */
  function Retire(d: Device, slots: set<nat>): Device
  {
    d.(pending := map s | s in d.pending && s !in slots :: d.pending[s],
       fences := map f | f in d.fences :: d.fences[f] || exists s :: s in slots && s in d.pending && d.pending[s].fence == f,
       semaphores := map x | x in d.semaphores ::
         if d.semaphores[x].WaitDue? && d.semaphores[x].waiter.Submission? && d.semaphores[x].waiter.slot in slots then Idle
         else d.semaphores[x])
  }

  /** Presentations whose semaphore wait has executed. */
  function Present(d: Device, consumed: set<Handle>): Device
  {
    d.(semaphores := map x | x in d.semaphores ::
         if x in consumed && d.semaphores[x] == WaitDue(Presentation) then Idle else d.semaphores[x])
  }

  /** What the GPU and the presentation engine may have done since. */
  ghost predicate Progressed(d: Device, e: Device) {
    exists slots, consumed :: e == Present(Retire(d, slots), consumed)
  }

  /** vkWaitForFences on one fence, returning VK_SUCCESS. */
  function WaitForFence(d: Device, fence: Handle): Device
    requires Waitable(d, fence)
  {
    Retire(d, set s | s in d.pending && d.pending[s].fence == fence)
  }

  /** vkDeviceWaitIdle, returning VK_SUCCESS: queued work and queued presentation waits are over. */
  function WaitIdle(d: Device): Device
  {
    Present(Retire(d, d.pending.Keys), d.semaphores.Keys)
  }

  /** vkResetFences and vkDestroyFence: no queued work may use the fence. */
  predicate FenceUnused(d: Device, fence: Handle) {
    fence in d.fences && forall s | s in d.pending :: d.pending[s].fence != fence
  }

  function ResetFence(d: Device, fence: Handle): Device
    requires FenceUnused(d, fence)
  {
    d.(fences := d.fences[fence := false])
  }

  /** vkResetCommandBuffer: the command buffer may not be pending. */
  predicate MayResetCommandBuffer(d: Device, slot: nat) {
    slot !in d.pending
  }

  predicate MayAcquire(d: Device, semaphore: Handle, image: nat) {
    semaphore in d.semaphores && d.semaphores[semaphore] == Idle && image !in d.held
  }

  /**
   vkAcquireNextImageKHR: the semaphore has no signal or wait outstanding. The
   engine hands out an image it does not have out, whose previous presentation
   has consumed `rendered`.
   */
  function Acquire(d: Device, semaphore: Handle, image: nat, rendered: Handle): Device
    requires MayAcquire(d, semaphore, image)
  {
    var p := Present(d, {rendered});
    p.(semaphores := p.semaphores[semaphore := SignalDue(Presentation)], held := d.held + {image})
  }

  /** The slot's command buffer and the fence are free, the wait has a signal to wait for, and nothing else draws to the image. */
  predicate MaySubmit(d: Device, slot: nat, image: nat, wait: Handle, fence: Handle) {
    && slot !in d.pending && image in d.held
    && wait in d.semaphores && d.semaphores[wait] == SignalDue(Presentation)
    && fence in d.fences && !d.fences[fence]
    && forall s | s in d.pending :: d.pending[s].fence != fence && d.pending[s].image != image
  }

  /** vkQueueSubmit of a frame; the semaphore to signal starts idle. */
  function Submit(d: Device, slot: nat, image: nat, wait: Handle, signal: Handle, fence: Handle): Device
    requires MaySubmit(d, slot, image, wait, fence)
    requires signal in d.semaphores && d.semaphores[signal] == Idle
  {
    d.(pending := d.pending[slot := Work(image, fence)],
       semaphores := d.semaphores[wait := WaitDue(Submission(slot))][signal := SignalDue(Submission(slot))])
  }

  predicate MayPresent(d: Device, image: nat, rendered: Handle) {
    image in d.held && rendered in d.semaphores && d.semaphores[rendered].SignalDue? && d.semaphores[rendered].signaller.Submission?
  }

  /** vkQueuePresentKHR waiting on `rendered`. */
  function PresentImage(d: Device, image: nat, rendered: Handle): Device
    requires MayPresent(d, image, rendered)
  {
    d.(held := d.held - {image}, semaphores := d.semaphores[rendered := WaitDue(Presentation)])
  }

  predicate MayPresentNow(d: Device, image: nat) {
    image in d.held && forall s | s in d.pending :: d.pending[s].image != image
  }

  /** vkQueuePresentKHR without a wait: no work on the image may be pending. */
  function PresentImageNow(d: Device, image: nat): Device
    requires MayPresentNow(d, image)
  {
    d.(held := d.held - {image})
  }

  /** vkQueueSubmit of the slot's command buffer with one wait and no signal. */
  function SubmitWait(d: Device, slot: nat, image: nat, wait: Handle, fence: Handle): Device
    requires MaySubmit(d, slot, image, wait, fence)
  {
    d.(pending := d.pending[slot := Work(image, fence)], semaphores := d.semaphores[wait := WaitDue(Submission(slot))])
  }

  function CreateFence(d: Device, fence: Handle, signalled: bool): Device
    requires fence != NULL && fence !in d.fences
  {
    d.(fences := d.fences[fence := signalled])
  }

  function CreateSemaphore(d: Device, semaphore: Handle): Device
    requires semaphore != NULL && semaphore !in d.semaphores
  {
    d.(semaphores := d.semaphores[semaphore := Idle])
  }

  function DestroyFence(d: Device, fence: Handle): Device
    requires FenceUnused(d, fence)
  {
    d.(fences := d.fences - {fence})
  }

  /** No queued work, and no image acquisition, still has to signal it or wait for it. */
  predicate Unused(d: Device, semaphore: Handle) {
    semaphore in d.semaphores &&
    match d.semaphores[semaphore]
    case Idle => true
    case SignalDue(Submission(slot)) => slot !in d.pending
    case _ => false
  }

  /** vkDestroySemaphore. */
  function DestroySemaphore(d: Device, semaphore: Handle): Device
    requires Unused(d, semaphore)
  {
    d.(semaphores := d.semaphores - {semaphore})
  }

  /** vkDestroyFramebuffer, and releasing a swapchain's images: no pending work may use them. */
  predicate MayDestroyImages(d: Device) {
    d.pending == map[]
  }

  function ReleaseImages(d: Device): Device
    requires MayDestroyImages(d)
  {
    d.(held := {})
  }
}

module PresenterFrame {
  import opened Optional
  import opened Gpu

  /** The per-slot objects. */
  datatype FrameSync = FrameSync(imageAvailable: Handle, inFlight: Handle)

  /** An acquired image. */
  datatype AcquiredFrame = AcquiredFrame(framebuffer: Handle, image: nat)

  /** A frame handed to the caller: its command buffer is named by its slot. */
  datatype Frame = Frame(slot: nat, framebuffer: Handle, image: nat)

  datatype AbortState = AcquiredOnly | FinalSubmitCompleted

  /** How far an open frame has come. */
  datatype Phase = Acquired(reset: bool) | Consumed | Cleared | Submitted | PresentFailed

  datatype Open = Open(slot: nat, image: nat, phase: Phase)

  /** A slot with no frame open: its work is pending under its own fence, or retired with everything free again. */
  predicate SlotSettled(d: Device, f: FrameSync, slot: nat) {
    && f.inFlight in d.fences && f.imageAvailable in d.semaphores
    && if slot in d.pending then
         d.pending[slot].fence == f.inFlight && !d.fences[f.inFlight]
         && d.semaphores[f.imageAvailable] == WaitDue(Submission(slot))
       else d.fences[f.inFlight] && d.semaphores[f.imageAvailable] == Idle
  }

  /** The slot of an open frame before anything has been submitted for it. */
  predicate SlotOpen(d: Device, f: FrameSync, slot: nat, phase: Phase) {
    && f.inFlight in d.fences && f.imageAvailable in d.semaphores
    && slot !in d.pending
    && d.semaphores[f.imageAvailable] == (if phase.Acquired? then SignalDue(Presentation) else Idle)
    && (phase == Acquired(true) ==> !d.fences[f.inFlight])
  }

  /** No image entry dangles, and pending work on an image is always named by the image's entry. */
  predicate ImagesTracked(d: Device, frames: seq<FrameSync>, imagesInFlight: seq<Handle>)
    requires |frames| == 2
  {
    && (forall i | 0 <= i < |imagesInFlight| ::
          imagesInFlight[i] == NULL || imagesInFlight[i] == frames[0].inFlight || imagesInFlight[i] == frames[1].inFlight)
    && (forall s | s in d.pending ::
          s < 2 && d.pending[s].image < |imagesInFlight| && imagesInFlight[d.pending[s].image] == d.pending[s].fence)
  }

  /** Every semaphore handle the presenter holds is its own; an entry a failed creation left behind is NULL. */
  predicate SemaphoresDistinct(frames: seq<FrameSync>, renderFinished: seq<Handle>)
    requires |frames| == 2
  {
    && frames[0].imageAvailable != frames[1].imageAvailable
    && frames[0].imageAvailable !in renderFinished && frames[1].imageAvailable !in renderFinished
    && forall i, j | 0 <= i < j < |renderFinished| :: renderFinished[i] != renderFinished[j] || renderFinished[i] == NULL
  }

  /** A render_finished that may signal again: idle, or its last wait is queued by the presentation engine. */
  predicate Reusable(d: Device, semaphore: Handle) {
    semaphore == NULL || (semaphore in d.semaphores && d.semaphores[semaphore] in {Idle, WaitDue(Presentation)})
  }

  /** Every live fence and semaphore the presenter made is one it still holds. */
  predicate NothingLeaked(d: Device, frames: seq<FrameSync>, renderFinished: seq<Handle>)
    requires |frames| == 2
  {
    && (forall f | f in d.fences :: f == frames[0].inFlight || f == frames[1].inFlight)
    && (forall x | x in d.semaphores :: x == frames[0].imageAvailable || x == frames[1].imageAvailable || x in renderFinished)
  }

  /** Nothing is queued anywhere. */
  predicate Quiet(d: Device) {
    d.pending == map[] && forall x | x in d.semaphores :: !(d.semaphores[x].WaitDue? && d.semaphores[x].waiter == Presentation)
  }

  predicate SameHandles(d: Device, e: Device) {
    e.fences.Keys == d.fences.Keys && e.semaphores.Keys == d.semaphores.Keys
  }

  predicate Handles(d: Device, frames: seq<FrameSync>, renderFinished: seq<Handle>, imagesInFlight: seq<Handle>) {
    && |frames| == 2 && |renderFinished| == |imagesInFlight|
    && frames[0].inFlight != frames[1].inFlight && NULL !in d.fences && NULL !in d.semaphores
    && SemaphoresDistinct(frames, renderFinished)
  }

  predicate OpenFrame(d: Device, frames: seq<FrameSync>, renderFinished: seq<Handle>, imagesInFlight: seq<Handle>, o: Open)
    requires Handles(d, frames, renderFinished, imagesInFlight)
  {
    && o.slot < 2 && o.image < |renderFinished|
    && imagesInFlight[o.image] == frames[o.slot].inFlight
    && SlotSettled(d, frames[1 - o.slot], 1 - o.slot)
    && (forall i | 0 <= i < |renderFinished| && i != o.image :: Reusable(d, renderFinished[i]))
    && renderFinished[o.image] in d.semaphores && d.held <= {o.image}
    && var rendered := d.semaphores[renderFinished[o.image]];
       match o.phase
       case Submitted =>
         SlotSettled(d, frames[o.slot], o.slot) && rendered == SignalDue(Submission(o.slot)) && d.held == {o.image}
       case PresentFailed =>
         SlotSettled(d, frames[o.slot], o.slot) && rendered in {Idle, SignalDue(Submission(o.slot)), WaitDue(Presentation)}
       case _ =>
         SlotOpen(d, frames[o.slot], o.slot, o.phase) && rendered == Idle && (o.phase != Cleared ==> d.held == {o.image})
  }

  /** The invariant of the machine between any two calls. */
  predicate Sound(d: Device, frames: seq<FrameSync>, renderFinished: seq<Handle>, imagesInFlight: seq<Handle>, open: Option<Open>) {
    && Handles(d, frames, renderFinished, imagesInFlight)
    && ImagesTracked(d, frames, imagesInFlight)
    && match open
       case None =>
         && SlotSettled(d, frames[0], 0) && SlotSettled(d, frames[1], 1) && d.held == {}
         && (forall i | 0 <= i < |renderFinished| :: Reusable(d, renderFinished[i]))
       case Some(o) => OpenFrame(d, frames, renderFinished, imagesInFlight, o)
  }

  // ------------------------------------------------ stable under the GPU

  lemma RetireSettles(d: Device, frames: seq<FrameSync>, slots: set<nat>, slot: nat)
    requires |frames| == 2 && slot < 2 && frames[0].inFlight != frames[1].inFlight
    requires SlotSettled(d, frames[slot], slot)
    requires d.pending.Keys <= {0, 1}
    requires forall s | s in d.pending :: d.pending[s].fence == frames[s].inFlight
    ensures SlotSettled(Retire(d, slots), frames[slot], slot)
  {
    var f := frames[slot].inFlight;
    if slot in d.pending && slot !in slots {
      forall s | s in slots && s in d.pending
        ensures d.pending[s].fence != f
      {
        assert s in {0, 1};
      }
    }
  }

  /** Pending work is always pending under its own slot's current fence. */
  lemma PendingIsTheSlotsOwn(d: Device, frames: seq<FrameSync>, renderFinished: seq<Handle>, imagesInFlight: seq<Handle>,
                             open: Option<Open>)
    requires Sound(d, frames, renderFinished, imagesInFlight, open)
    ensures d.pending.Keys <= {0, 1}
    ensures forall s | s in d.pending :: d.pending[s].fence == frames[s].inFlight
  {
    forall s | s in d.pending
      ensures s < 2 && d.pending[s].fence == frames[s].inFlight
    {
      assert s == 0 || s == 1;
    }
  }

  lemma RetireKeepsSound(d: Device, frames: seq<FrameSync>, renderFinished: seq<Handle>, imagesInFlight: seq<Handle>,
                         open: Option<Open>, slots: set<nat>)
    requires Sound(d, frames, renderFinished, imagesInFlight, open)
    ensures Sound(Retire(d, slots), frames, renderFinished, imagesInFlight, open)
  {
    PendingIsTheSlotsOwn(d, frames, renderFinished, imagesInFlight, open);
    match open
    case None =>
      RetireSettles(d, frames, slots, 0);
      RetireSettles(d, frames, slots, 1);
    case Some(o) =>
      RetireSettles(d, frames, slots, 1 - o.slot);
      if o.phase == Submitted || o.phase == PresentFailed {
        RetireSettles(d, frames, slots, o.slot);
      }
  }

  lemma PresentKeepsSound(d: Device, frames: seq<FrameSync>, renderFinished: seq<Handle>, imagesInFlight: seq<Handle>,
                          open: Option<Open>, consumed: set<Handle>)
    requires Sound(d, frames, renderFinished, imagesInFlight, open)
    ensures Sound(Present(d, consumed), frames, renderFinished, imagesInFlight, open)
  {
  }

  lemma ProgressKeepsSound(d: Device, frames: seq<FrameSync>, renderFinished: seq<Handle>, imagesInFlight: seq<Handle>,
                           open: Option<Open>, slots: set<nat>, consumed: set<Handle>)
    requires Sound(d, frames, renderFinished, imagesInFlight, open)
    ensures Sound(Present(Retire(d, slots), consumed), frames, renderFinished, imagesInFlight, open)
    ensures var e := Present(Retire(d, slots), consumed);
            Progressed(d, e) && SameHandles(d, e) && e.pending.Keys <= d.pending.Keys && e.held == d.held
  {
    hide Sound;
    RetireKeepsSound(d, frames, renderFinished, imagesInFlight, open, slots);
    PresentKeepsSound(Retire(d, slots), frames, renderFinished, imagesInFlight, open, consumed);
  }

  lemma SoundLengths(d: Device, frames: seq<FrameSync>, renderFinished: seq<Handle>, imagesInFlight: seq<Handle>, open: Option<Open>)
    requires Sound(d, frames, renderFinished, imagesInFlight, open)
    ensures |frames| == 2 && |renderFinished| == |imagesInFlight|
    ensures open.Some? ==> open.value.image < |renderFinished|
  {
  }

  lemma SameHandlesLeakNothing(d: Device, e: Device, frames: seq<FrameSync>, renderFinished: seq<Handle>)
    requires |frames| == 2 && NothingLeaked(d, frames, renderFinished)
    requires SameHandles(d, e)
    ensures NothingLeaked(e, frames, renderFinished)
  {
  }

  // --------------------------------------------------- steps of the machine

  /** Waiting for the slot's fence terminates, and afterwards nothing submitted with the slot is pending. */
  lemma FenceWaitFreesSlot(d: Device, frames: seq<FrameSync>, renderFinished: seq<Handle>, imagesInFlight: seq<Handle>, slot: nat)
    requires Sound(d, frames, renderFinished, imagesInFlight, None) && slot < 2
    ensures Waitable(d, frames[slot].inFlight)
    ensures var e := WaitForFence(d, frames[slot].inFlight);
            Sound(e, frames, renderFinished, imagesInFlight, None) && slot !in e.pending && SameHandles(d, e)
  {
    var f := frames[slot].inFlight;
    if slot in d.pending {
      assert d.pending[slot].fence == f;
    }
    RetireKeepsSound(d, frames, renderFinished, imagesInFlight, None, (set s | s in d.pending && d.pending[s].fence == f));
  }

  /** The device after the image has been acquired and its previous user, if it is named, waited for. */
  function AfterAcquire(d: Device, f: FrameSync, renderFinished: seq<Handle>, imagesInFlight: seq<Handle>, image: nat): Device
    requires MayAcquire(d, f.imageAvailable, image)
    requires image < |renderFinished| == |imagesInFlight|
    requires imagesInFlight[image] == NULL || Waitable(d, imagesInFlight[image])
  {
    var acquired := Acquire(d, f.imageAvailable, image, renderFinished[image]);
    if imagesInFlight[image] == NULL then acquired else WaitForFence(acquired, imagesInFlight[image])
  }

  lemma ImageWaitTerminates(d: Device, frames: seq<FrameSync>, renderFinished: seq<Handle>, imagesInFlight: seq<Handle>, image: nat)
    requires Sound(d, frames, renderFinished, imagesInFlight, None) && image < |imagesInFlight|
    ensures imagesInFlight[image] == NULL || Waitable(d, imagesInFlight[image])
  {
    if imagesInFlight[image] != NULL {
      var slot := if imagesInFlight[image] == frames[0].inFlight then 0 else 1;
      assert SlotSettled(d, frames[slot], slot);
      if slot in d.pending {
        assert d.pending[slot].fence == imagesInFlight[image];
      }
    }
  }

  /** The wait on the image's entry is enough, although that entry may name a fence since used for another image. */
  lemma WaitFreesImage(d: Device, frames: seq<FrameSync>, renderFinished: seq<Handle>, imagesInFlight: seq<Handle>, slot: nat, image: nat)
    requires Sound(d, frames, renderFinished, imagesInFlight, None) && slot < 2
    requires image < |renderFinished| && MayAcquire(d, frames[slot].imageAvailable, image)
    requires imagesInFlight[image] == NULL || Waitable(d, imagesInFlight[image])
    ensures ImagesTracked(AfterAcquire(d, frames[slot], renderFinished, imagesInFlight, image), frames,
                          imagesInFlight[image := frames[slot].inFlight])
  {
    PendingIsTheSlotsOwn(d, frames, renderFinished, imagesInFlight, None);
  }

  /**
   An acquired image has no pending work, although its entry may name a fence
   that has since been used for another image.
   */
  lemma AcquireOpensFrame(d: Device, frames: seq<FrameSync>, renderFinished: seq<Handle>, imagesInFlight: seq<Handle>,
                          slot: nat, image: nat)
    requires Sound(d, frames, renderFinished, imagesInFlight, None) && slot < 2 && slot !in d.pending
    requires image < |renderFinished| && renderFinished[image] != NULL
    requires imagesInFlight[image] == NULL || Waitable(d, imagesInFlight[image])
    ensures MayAcquire(d, frames[slot].imageAvailable, image)
    ensures var e := AfterAcquire(d, frames[slot], renderFinished, imagesInFlight, image);
            Sound(e, frames, renderFinished, imagesInFlight[image := frames[slot].inFlight], Some(Open(slot, image, Acquired(false))))
  {
    PendingIsTheSlotsOwn(d, frames, renderFinished, imagesInFlight, None);
    assert MayAcquire(d, frames[slot].imageAvailable, image) by { assert SlotSettled(d, frames[slot], slot); }
    WaitFreesImage(d, frames, renderFinished, imagesInFlight, slot, image);
    hide ImagesTracked;
    var e := Acquire(d, frames[slot].imageAvailable, image, renderFinished[image]);
    var other := 1 - slot;
    assert SlotSettled(e, frames[other], other);
    if imagesInFlight[image] != NULL {
      RetireSettles(e, frames, (set s | s in e.pending && e.pending[s].fence == imagesInFlight[image]), other);
    }
  }

  lemma AcquireKeepsHandles(d: Device, f: FrameSync, renderFinished: seq<Handle>, imagesInFlight: seq<Handle>, image: nat)
    requires MayAcquire(d, f.imageAvailable, image)
    requires image < |renderFinished| == |imagesInFlight|
    requires imagesInFlight[image] == NULL || Waitable(d, imagesInFlight[image])
    ensures SameHandles(d, AfterAcquire(d, f, renderFinished, imagesInFlight, image))
  {
  }

  /** Until a frame is submitted, no pending work targets its image or uses its fence. */
  lemma OpenImageIsFree(d: Device, frames: seq<FrameSync>, renderFinished: seq<Handle>, imagesInFlight: seq<Handle>, o: Open)
    requires Sound(d, frames, renderFinished, imagesInFlight, Some(o)) && (o.phase.Acquired? || o.phase.Consumed?)
    ensures o.slot !in d.pending
    ensures forall s | s in d.pending :: d.pending[s].image != o.image && d.pending[s].fence != frames[o.slot].inFlight
  {
    forall s | s in d.pending
      ensures d.pending[s].image != o.image && d.pending[s].fence != frames[o.slot].inFlight
    {
      assert s == 1 - o.slot;
    }
  }

  lemma ResetKeepsSound(d: Device, frames: seq<FrameSync>, renderFinished: seq<Handle>, imagesInFlight: seq<Handle>, o: Open)
    requires Sound(d, frames, renderFinished, imagesInFlight, Some(o)) && o.phase.Acquired?
    ensures FenceUnused(d, frames[o.slot].inFlight) && MayResetCommandBuffer(d, o.slot)
    ensures SameHandles(d, ResetFence(d, frames[o.slot].inFlight))
    ensures Sound(ResetFence(d, frames[o.slot].inFlight), frames, renderFinished, imagesInFlight, Some(o.(phase := Acquired(true))))
  {
    OpenImageIsFree(d, frames, renderFinished, imagesInFlight, o);
  }

  lemma SubmitKeepsSound(d: Device, frames: seq<FrameSync>, renderFinished: seq<Handle>, imagesInFlight: seq<Handle>, o: Open)
    requires Sound(d, frames, renderFinished, imagesInFlight, Some(o)) && o.phase == Acquired(true)
    ensures MaySubmit(d, o.slot, o.image, frames[o.slot].imageAvailable, frames[o.slot].inFlight)
    ensures renderFinished[o.image] in d.semaphores && d.semaphores[renderFinished[o.image]] == Idle
    ensures var e := Submit(d, o.slot, o.image, frames[o.slot].imageAvailable, renderFinished[o.image], frames[o.slot].inFlight);
            SameHandles(d, e) && Sound(e, frames, renderFinished, imagesInFlight, Some(o.(phase := Submitted)))
  {
    OpenImageIsFree(d, frames, renderFinished, imagesInFlight, o);
  }

  /** A successful present closes the frame; a failed one may or may not have reached the engine. */
  lemma PresentKeepsMachine(d: Device, frames: seq<FrameSync>, renderFinished: seq<Handle>, imagesInFlight: seq<Handle>, o: Open)
    requires Sound(d, frames, renderFinished, imagesInFlight, Some(o)) && o.phase == Submitted
    ensures MayPresent(d, o.image, renderFinished[o.image])
    ensures Sound(PresentImage(d, o.image, renderFinished[o.image]), frames, renderFinished, imagesInFlight, None)
    ensures Sound(PresentImage(d, o.image, renderFinished[o.image]), frames, renderFinished, imagesInFlight, Some(o.(phase := PresentFailed)))
    ensures SameHandles(d, PresentImage(d, o.image, renderFinished[o.image]))
    ensures Sound(d, frames, renderFinished, imagesInFlight, Some(o.(phase := PresentFailed)))
  {
  }

  /** A cleared image presented without a wait, whether or not the presentation took effect. */
  lemma ClearKeepsSound(d: Device, frames: seq<FrameSync>, renderFinished: seq<Handle>, imagesInFlight: seq<Handle>, o: Open)
    requires Sound(d, frames, renderFinished, imagesInFlight, Some(o)) && o.phase == Consumed
    ensures MayPresentNow(d, o.image)
    ensures Sound(d, frames, renderFinished, imagesInFlight, Some(o.(phase := Cleared)))
    ensures var e := PresentImageNow(d, o.image);
            Sound(e, frames, renderFinished, imagesInFlight, Some(o.(phase := Cleared))) && SameHandles(d, e) && e.held == {}
  {
    OpenImageIsFree(d, frames, renderFinished, imagesInFlight, o);
  }

  lemma IdleKeepsSound(d: Device, frames: seq<FrameSync>, renderFinished: seq<Handle>, imagesInFlight: seq<Handle>, open: Option<Open>)
    requires Sound(d, frames, renderFinished, imagesInFlight, open)
    ensures var e := WaitIdle(d);
            && Sound(e, frames, renderFinished, imagesInFlight, open)
            && Quiet(e) && e.held == d.held && SameHandles(d, e)
  {
    RetireKeepsSound(d, frames, renderFinished, imagesInFlight, open, d.pending.Keys);
    PresentKeepsSound(Retire(d, d.pending.Keys), frames, renderFinished, imagesInFlight, open, d.semaphores.Keys);
  }

  /** The empty submission only consumes the acquired semaphore, and its own fence never becomes a frame's. */
  lemma ConsumeOnlyWaits(d: Device, frames: seq<FrameSync>, renderFinished: seq<Handle>, imagesInFlight: seq<Handle>, o: Open, fence: Handle)
    requires Sound(d, frames, renderFinished, imagesInFlight, Some(o)) && o.phase.Acquired?
    requires d.pending == map[] && fence != NULL && fence !in d.fences && NothingLeaked(d, frames, renderFinished)
    ensures var wait := frames[o.slot].imageAvailable;
            var c := CreateFence(d, fence, false);
            && MayResetCommandBuffer(d, o.slot)
            && FenceUnused(c, fence) && DestroyFence(c, fence) == d
            && wait in d.semaphores && MaySubmit(c, o.slot, o.image, wait, fence)
            && var e := SubmitWait(c, o.slot, o.image, wait, fence);
            && Waitable(e, fence) && FenceUnused(WaitForFence(e, fence), fence)
            && DestroyFence(WaitForFence(e, fence), fence) == d.(semaphores := d.semaphores[wait := Idle])
  {
    OpenImageIsFree(d, frames, renderFinished, imagesInFlight, o);
    var wait := frames[o.slot].imageAvailable;
    var e := SubmitWait(CreateFence(d, fence, false), o.slot, o.image, wait, fence);
    assert e.pending[o.slot].fence == fence;
    assert DestroyFence(CreateFence(d, fence, false), fence).fences == d.fences;
    var g := WaitForFence(e, fence);
    assert g.pending == map[];
    assert DestroyFence(g, fence).fences == d.fences;
    forall x | x in d.semaphores
      ensures g.semaphores[x] == d.semaphores[wait := Idle][x]
    {
      assert SlotSettled(d, frames[1 - o.slot], 1 - o.slot);
      if x in renderFinished {
        var i :| 0 <= i < |renderFinished| && renderFinished[i] == x;
      }
    }
    assert g.semaphores == d.semaphores[wait := Idle];
  }

  lemma ConsumedIsSound(d: Device, frames: seq<FrameSync>, renderFinished: seq<Handle>, imagesInFlight: seq<Handle>, o: Open)
    requires Sound(d, frames, renderFinished, imagesInFlight, Some(o)) && o.phase.Acquired? && Quiet(d)
    ensures var e := d.(semaphores := d.semaphores[frames[o.slot].imageAvailable := Idle]);
            Sound(e, frames, renderFinished, imagesInFlight, Some(o.(phase := Consumed))) && SameHandles(d, e) && Quiet(e)
  {
  }

  /** Every entry naming the fence becomes NULL. */
  function WithoutFence(imagesInFlight: seq<Handle>, fence: Handle): (r: seq<Handle>)
    ensures |r| == |imagesInFlight|
    ensures forall i | 0 <= i < |r| :: r[i] == if imagesInFlight[i] == fence then NULL else imagesInFlight[i]
  {
    seq(|imagesInFlight|, i requires 0 <= i < |imagesInFlight| => if imagesInFlight[i] == fence then NULL else imagesInFlight[i])
  }

  /** The two semaphores and the fence an abandoned frame leaves behind may be destroyed. */
  predicate Replaceable(d: Device, frames: seq<FrameSync>, renderFinished: seq<Handle>, o: Open)
    requires |frames| == 2 && o.slot < 2 && o.image < |renderFinished|
  {
    && Unused(d, frames[o.slot].imageAvailable) && Unused(d, renderFinished[o.image])
    && frames[o.slot].imageAvailable != renderFinished[o.image]
    && frames[o.slot].inFlight in d.fences && d.pending == map[]
  }

  lemma IdleFrameIsReplaceable(d: Device, frames: seq<FrameSync>, renderFinished: seq<Handle>, imagesInFlight: seq<Handle>, o: Open)
    requires Sound(d, frames, renderFinished, imagesInFlight, Some(o)) && !o.phase.Acquired? && Quiet(d)
    ensures Replaceable(d, frames, renderFinished, o)
  {
    assert frames[o.slot].imageAvailable !in renderFinished;
  }

  predicate FreshHandles(d: Device, f: FrameSync, rendered: Handle) {
    && f.imageAvailable != NULL && f.imageAvailable !in d.semaphores
    && rendered != NULL && rendered !in d.semaphores && rendered != f.imageAvailable
    && f.inFlight != NULL && f.inFlight !in d.fences
  }

  function ReplaceSync(d: Device, before: FrameSync, rendered: Handle, after: FrameSync, newRendered: Handle): Device
    requires Unused(d, before.imageAvailable) && Unused(d, rendered) && before.imageAvailable != rendered
    requires before.inFlight in d.fences && d.pending == map[]
    requires FreshHandles(d, after, newRendered)
  {
    var c := CreateFence(CreateSemaphore(CreateSemaphore(d, after.imageAvailable), newRendered), after.inFlight, true);
    DestroyFence(DestroySemaphore(DestroySemaphore(c, before.imageAvailable), rendered), before.inFlight)
  }

  lemma ReplaceKeepsSound(d: Device, frames: seq<FrameSync>, renderFinished: seq<Handle>, imagesInFlight: seq<Handle>, o: Open,
                          after: FrameSync, newRendered: Handle)
    requires Sound(d, frames, renderFinished, imagesInFlight, Some(o)) && Replaceable(d, frames, renderFinished, o)
    requires FreshHandles(d, after, newRendered)
    ensures var e := ReplaceSync(d, frames[o.slot], renderFinished[o.image], after, newRendered);
            && Sound(e.(held := {}), frames[o.slot := after], renderFinished[o.image := newRendered],
                     WithoutFence(imagesInFlight, frames[o.slot].inFlight), None)
            && (Quiet(d) ==> Quiet(e)) && e.held == d.held
  {
  }

  lemma ReplaceLeaksNothing(d: Device, frames: seq<FrameSync>, renderFinished: seq<Handle>, o: Open, after: FrameSync, newRendered: Handle)
    requires |frames| == 2 && o.slot < 2 && o.image < |renderFinished|
    requires NothingLeaked(d, frames, renderFinished) && Replaceable(d, frames, renderFinished, o)
    requires FreshHandles(d, after, newRendered)
    ensures NothingLeaked(ReplaceSync(d, frames[o.slot], renderFinished[o.image], after, newRendered),
                          frames[o.slot := after], renderFinished[o.image := newRendered])
  {
    var e := ReplaceSync(d, frames[o.slot], renderFinished[o.image], after, newRendered);
    var rendered := renderFinished[o.image := newRendered];
    assert rendered[o.image] == newRendered;
    forall x | x in e.semaphores && x in renderFinished
      ensures x in rendered
    {
      var i :| 0 <= i < |renderFinished| && renderFinished[i] == x;
      assert i == o.image || rendered[i] == x;
    }
  }

  // ----------------------------------------- the swapchain's semaphores

  /** The presenter's sync objects as a whole: what every step keeps and what no step leaks. */
  predicate Whole(d: Device, frames: seq<FrameSync>, renderFinished: seq<Handle>, imagesInFlight: seq<Handle>) {
    Sound(d, frames, renderFinished, imagesInFlight, None) && NothingLeaked(d, frames, renderFinished) && Quiet(d)
  }

  lemma DestroyKeepsWhole(d: Device, frames: seq<FrameSync>, renderFinished: seq<Handle>, imagesInFlight: seq<Handle>, i: nat)
    requires Whole(d, frames, renderFinished, imagesInFlight) && i < |renderFinished| && renderFinished[i] != NULL
    ensures Unused(d, renderFinished[i])
    ensures Whole(DestroySemaphore(d, renderFinished[i]), frames, renderFinished[i := NULL], imagesInFlight)
  {
    var e := DestroySemaphore(d, renderFinished[i]);
    var left := renderFinished[i := NULL];
    forall x | x in e.semaphores && x in renderFinished
      ensures x in left
    {
      var j :| 0 <= j < |renderFinished| && renderFinished[j] == x;
      assert left[j] == x;
    }
  }

  lemma CreateKeepsWhole(d: Device, frames: seq<FrameSync>, renderFinished: seq<Handle>, imagesInFlight: seq<Handle>, i: nat, made: Handle)
    requires Whole(d, frames, renderFinished, imagesInFlight) && i < |renderFinished| && renderFinished[i] == NULL
    requires made != NULL && made !in d.semaphores
    ensures Whole(CreateSemaphore(d, made), frames, renderFinished[i := made], imagesInFlight)
  {
    var after := renderFinished[i := made];
    assert after[i] == made;
    assert made !in renderFinished;
    forall x | x in d.semaphores && x in renderFinished
      ensures x in after
    {
      var j :| 0 <= j < |renderFinished| && renderFinished[j] == x;
      assert j != i && after[j] == x;
    }
  }

  /** With every semaphore gone the arrays may be resized freely. */
  lemma EmptyKeepsWhole(d: Device, frames: seq<FrameSync>, renderFinished: seq<Handle>, imagesInFlight: seq<Handle>, n: nat)
    requires Whole(d, frames, renderFinished, imagesInFlight) && forall i | 0 <= i < |renderFinished| :: renderFinished[i] == NULL
    ensures Whole(d, frames, Nulls(n), Nulls(n))
  {
  }

  /** The live semaphores are the frames' and the images'. */
  lemma LiveSemaphores(d: Device, frames: seq<FrameSync>, renderFinished: seq<Handle>, imagesInFlight: seq<Handle>)
    requires Whole(d, frames, renderFinished, imagesInFlight)
    ensures |frames| == 2
    ensures forall x :: x in d.semaphores <==> x == frames[0].imageAvailable || x == frames[1].imageAvailable || (x != NULL && x in renderFinished)
  {
  }

  function Nulls(n: nat): (r: seq<Handle>)
    ensures |r| == n && forall i | 0 <= i < n :: r[i] == NULL
  {
    seq(n, i => NULL)
  }
}
