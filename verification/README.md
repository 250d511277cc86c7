# A verified model of vkexec

vkexec schedules Vulkan work through senders. This project models the parts of
it where something can go wrong between threads, queues and the device, in
Dafny, and proves what they are for. `dafny verify dfyconfig.toml` checks all
of it.

The model follows the program. What updates fields step by step is a class or
a loop here too (the completion waiter, the host agent, the presenter, the
profiler and its captures, the command pools, the submit scope, the graph
builder, the resource tracker). Each such method is proved against a
specification on values, and the main results are lemmas about those
specifications: for every input, every run or every interleaving.

| file | models | main result |
|---|---|---|
| `OddEvenSort.dfy` | the sorting example | n phases sort every input of length n; any interleaving of one dispatch is one phase |
| `CompletionProtocol.dfy`, `CompletionWaiter.dfy` | the completion waiter | in every interleaving one callback a call, after everything it owns is reclaimed, and what it says follows from what was answered |
| `CompletionShutdown.dfy`, `CompletionTermination.dfy` | its shutdown | exactly which shutdown calls return drained; the worker leaves within a bound once its work has retired |
| `SubmitFence.dfy` | one fence submission | retirement, destruction, return of the lease, one signal, in this order, in every interleaving |
| `PresenterFrame.dfy`, `Presenter.dfy` | frames on a swapchain | nothing is reset, reused or destroyed while the device uses it; no wait hangs |
| `Profiler.dfy`, `ManualCapture.dfy`, `ProfileEvent.dfy` | query slots and captures | each page's pairs are always split into free, held and quarantined ones |
| `Utf8.dfy`, `JsonString.dfy`, `ChromeTrace.dfy` | the trace export | UTF-8 exactly; strings are read back; times are true across wrap-around |
| `CommandPools.dfy`, `SubmitScope.dfy`, `DescriptorCache.dfy` | leases and cached descriptor sets | every pool is in one place; a cached set holds what a fresh one would |
| `HostAgent.dfy` | the host thread | swapping batches is one FIFO queue; every start completes once |
| `PassGraph.dfy`, `ExecutionPlan.dfy` | building and planning graphs | the order asked for, whether written as a chain, a graph or both |
| `BufferRegions.dfy`, `BufferHazards.dfy`, `BufferAcceptance.dfy`, `BufferTracker.dfy` | the resource tracker, for buffers | every two uses of a byte that conflict are ordered; exactly which batches are accepted, said of the uses so far; a refused batch leaves no trace |
| `BarrierChains.dfy` | the barriers it records | exactly when every two conflicting uses of a byte are joined by a chain of barriers, transfers of ownership that reach both sides, and semaphores |
| `PreparedGraph.dfy`, `GraphSync.dfy`, `GraphRun.dfy` | preparing and submitting a graph | conflicting uses do not overlap on the device; one fence stands for the graph |
| `Bindings.dfy` | bound tables | metadata is complete exactly on a one-to-one match |
| `LegacyLowering.dfy`, `Submission.dfy` | devices without synchronization2 | lowering is least and never weakens, but for uniform reads |

What is found to be different from what one would expect is stated and
proved, with a condition that is exact or an input that shows it:

- A borrowed fence enqueued after shutdown is called back while its work may
  still be running (`CompletionProtocol.RetiredBeforeCallback`,
  `RejectedBorrowedIsReportedEarly`).
- A second, concurrent shutdown of the completion waiter, or of the host agent,
  returns before the thread has drained. What returning means is exact in both cases
  (`CompletionShutdown.ShutdownHasDrained`, `OnlyTheFirstShutdownTells`,
  `SecondShutdownReturnsUndrained`, and the same in `HostAgent`).
- After a recreation of the swapchain that failed on a plain change of size,
  acquisition stays enabled without framebuffers, and a resize to that size
  then reports success without repairing anything. `Presenter.Presenter.Resize`
  says exactly when a success can be relied on, `ResizeTwice` and
  `Presenter.BrokenAfterResize` show the failure, and `AcquireFrame` says what
  follows from it. If the wait for the device failed, the repeated resize
  reports success and frames go on at the old size (`ResizeUnwaited`).
- A graph whose queues were left implicit is misaligned after `append_after`,
  exactly then, and is refused when it is planned
  (`PassGraph.DynamicPassGraph.AppendAfter`, `ExecutionPlan.PlanAfterAppend`,
  `ImplicitQueuesAreRefused`).
- When a read takes a buffer over from another queue family and further reads of
  its queue follow, two things go wrong. Those reads get no barrier, so they are
  stranded unless the acquire covers their stages and accesses too; and the next
  write there, or the next release, waits for the later reads only, so the first
  is cut off. Images keep such a read among the readers
  (`resource_state_tracker.hpp:301`), buffers do not (435-437). The conditions
  are exact (`BarrierChains.ConflictsAreChained`, `HazardsAreGuarded`), and
  `TransferredRead` runs the tracker into each case.
- A uniform read is lowered to SHADER_READ although the legacy UNIFORM_READ
  bit exists; sections 7.1.2 and 7.1.3 of the Vulkan 1.3 specification decide
  whether that covers it, and the model says exactly when it matters
  (`LegacyMasks.OnlyUniformReadsWeaken`, `UniformReadCanBeLost`).
- Without the timeline structure a legacy submission drops the semaphores'
  values without an error (`Submission.ValuesAgreeWhenCarried`,
  `WaitValueIsDropped`).

## Model

| member | source | states |
|---|---|---|
| `OddEvenSort.PhasesSort` | examples/sort.cpp:96-108 | for every n and every total preorder, n alternating phases leave any input of length n sorted |
| `OddEvenSort.Travel` | examples/sort.cpp:37-49 | how far elements have moved after t phases: of the k elements above any value, the j-th from the right has passed every position up to min(n - j, t + d - 2j), where d is k or k + 1, whichever is even |
| `OddEvenSort.PhaseCount` | examples/sort.cpp:39-46 | one phase changes the number of elements above a value beyond a position exactly when the compared pair straddling that position is out of order around the value |
| `OddEvenSort.PhasesArePermutation` | examples/sort.cpp:42-47 | no number of phases loses or duplicates an element |
| `OddEvenSort.AnyInterleavingIsThePhase` | examples/sort.cpp:37-49 | however the loads and stores of one dispatch interleave, once all invocations are done the buffer is the phase; invocations past the data do nothing |
| `OddEvenSort.FourAccessesEach` | examples/sort.cpp:37-49 | every interleaving that lets each invocation make its four accesses finishes all of them, and leaves the phase |
| `OddEvenSort.CompareExchange` | examples/sort.cpp:37-49 | one invocation orders its own pair, if it has one, and touches nothing else |
| `OddEvenSort.Dispatch` | examples/sort.cpp:96-99 | one dispatch is one phase |
| `OddEvenSort.BuildGraph` | examples/sort.cpp:101-108 | the recorded graph alternates phases 0, 1, ... and barriers, starting and ending with a phase |
| `OddEvenSort.Execute` | examples/sort.cpp:103-110 | running the graph applies its phases in order |
| `OddEvenSort.SortOnDevice` | examples/sort.cpp:101-110 | the example end to end: the buffer ends sorted and a permutation of what it held |
| `CompletionProtocol.ExactlyOneCallback` | src/vkexec/completion_waiter.cpp:73-159 | in every interleaving of clients, shutdowns, the worker, callbacks that enqueue again and the GPU, an enqueue call, accepted or rejected, has had one callback once it is called back and none before |
| `CompletionProtocol.ExactlyOnePlace` | src/vkexec/completion_waiter.cpp:201-259 | a call is pending or active once, or being completed, or finished, never two of these and never lost |
| `CompletionProtocol.CompletionOrder` | src/vkexec/completion_waiter.cpp:31-50 | what happened for a call, in order: retirement, destruction of each owned object once and of borrowed ones never, the callback last; it says stopped exactly when some poll saw the stop, and failed whenever the call was rejected |
| `CompletionProtocol.CallbackTells` | src/vkexec/completion_waiter.cpp:142-259 | what a callback says, read off the actions of the run alone: an accepted call is told it failed exactly if it was started with an error (a failed wait of its turn, or its fence in error) or the wait for its own retirement failed, a rejected call always; and that it was stopped exactly if a poll of its token said so |
| `CompletionProtocol.OwnedAreDestroyed` | src/vkexec/completion_waiter.cpp:31-50 | a callback made for a call that owns its semaphore or fence comes after each of them has been destroyed, once |
| `CompletionProtocol.RetiredBeforeCallback` | src/vkexec/completion_waiter.cpp:98-103 | retirement comes before the callback exactly when the call owns its objects or was accepted with a fence |
| `CompletionProtocol.RejectedBorrowedIsReportedEarly` | src/vkexec/completion_waiter.cpp:106-129 | a run where the other case happens: a borrowed fence enqueued after shutdown is reported while its work is still running |
| `CompletionProtocol.ExitedMeansDrained` | src/vkexec/completion_waiter.cpp:227-259 | the worker leaves only after shutdown, with nothing pending and every accepted call finished |
| `CompletionShutdown.ShutdownHasDrained` | src/vkexec/completion_waiter.cpp:131-140 | in every run, a shutdown call that has returned has left nothing pending and every accepted call finished, with one callback each, if it set the flag itself; if it found the flag set, exactly when the worker holds no job at that moment |
| `CompletionShutdown.OnlyTheFirstShutdownTells` | src/vkexec/completion_waiter.cpp:133-139 | the return of a shutdown means drained in all runs exactly for the call that did not find the flag set |
| `CompletionShutdown.SecondShutdownReturnsUndrained` | src/vkexec/completion_waiter.cpp:135 | the run that fails: a second shutdown has returned and an accepted job is untouched |
| `CompletionShutdown.DrainedIsIdle` | src/vkexec/completion_waiter.cpp:227-259 | every accepted call is finished exactly when pending is empty and the worker holds no job |
| `CompletionShutdown.DrainedStays` | src/vkexec/completion_waiter.cpp:81-104 | once drained after shutdown nothing is ever accepted or taken up again |
| `CompletionTermination.WorkerLeaves` | src/vkexec/completion_waiter.cpp:227-259 | after shutdown, in every continuation in which fences answer truthfully, once the work the worker waits for has retired it takes no more actions than a bound, and what calls inside its own callbacks add; when it can take none it has left and all is drained |
| `CompletionTermination.WorkerCanLeave` | src/vkexec/completion_waiter.cpp:227-259 | from every such state the worker by itself leaves within the bound |
| `CompletionTermination.WorkersActionsAreBounded` | src/vkexec/completion_waiter.cpp:201-259 | the worker's actions and what is left of the bound never add up to more than the bound, whatever other threads and the GPU do between them |
| `CompletionTermination.AnsweredActionsDecrease` | src/vkexec/completion_waiter.cpp:201-259 | after shutdown every worker action that gets an answer other than not-ready lowers the bound |
| `CompletionTermination.OtherActionsKeepCost` | src/vkexec/completion_waiter.cpp:73-140 | nothing another thread or the GPU does after shutdown raises the bound; a call made inside the worker's callback raises it by its own completion |
| `CompletionTermination.WorkerNeverStuck` | src/vkexec/completion_waiter.cpp:232-259 | after shutdown, with the work it waits for retired, the worker always has such an action until it has left |
| `CompletionTermination.UnfinishedNeverIncrease` | src/vkexec/completion_waiter.cpp:201-259 | after shutdown the unfinished jobs never increase, and are one less exactly when the worker returns from one |
| `CompletionTermination.TurnFinishesReadyJobs` | src/vkexec/completion_waiter.cpp:201-259 | a turn of the loop that begins with a job whose fence is null or signalled ends with fewer jobs unfinished, whichever other fences are not ready |
| `CompletionTermination.StartedIsFinished` | src/vkexec/completion_waiter.cpp:206-222 | so does a turn in which a fence is found in error, or any job is taken up |
| `CompletionWaiter.Waiter.Enqueue` | src/vkexec/completion_waiter.cpp:73-129 | accepted exactly before shutdown, at the end of pending; rejected, it is called back with an error before the call returns |
| `CompletionWaiter.Waiter.ReclaimSync` | src/vkexec/completion_waiter.cpp:31-50 | everything of the call but its callback is done; the answer of the wait is given back, and makes the completion a failure exactly if it failed |
| `CompletionWaiter.Waiter.FinishJob` | src/vkexec/completion_waiter.cpp:142-153 | one whole completion: the callback says failed exactly if there was an error before or the wait for the job's own retirement failed, where it has one |
| `CompletionWaiter.Waiter.ReclaimJob` | src/vkexec/completion_waiter.cpp:142-151 | everything of the completion but its callback: an owned job is reclaimed, a borrowed one with a fence waited for, and a failed wait makes it a failure |
| `CompletionWaiter.Waiter.FinishAll` | src/vkexec/completion_waiter.cpp:155-159 | every active job is finished, and each callback tells the error of the turn or of its own wait |
| `CompletionWaiter.Waiter.PollStopFlags` | src/vkexec/completion_waiter.cpp:161-166 | each token is asked once, a stop flag once set stays set, and nothing else of a job changes |
| `CompletionWaiter.Waiter.CollectFences` | src/vkexec/completion_waiter.cpp:168-175 | the fences that are not null, in order |
| `CompletionWaiter.Waiter.ReapReadyJobs` | src/vkexec/completion_waiter.cpp:201-225 | exactly the jobs whose fences are not ready are kept; the others are called back, those with a fence in error as failed |
| `CompletionWaiter.Waiter.TakePending` | src/vkexec/completion_waiter.cpp:233-242 | pending moves over whole, and the worker leaves exactly when shutting down with nothing left |
| `CompletionWaiter.Waiter.RunOnce` | src/vkexec/completion_waiter.cpp:232-258 | the thread leaves only with nothing active or pending after shutdown; it goes on waiting only if nothing woke it; else everything active and pending is taken up, and who is called back, with what, and who is kept follows from what was answered |
| `CompletionWaiter.Waiter.Run` | src/vkexec/completion_waiter.cpp:227-259 | each job pending at first is called back by the first turn whose answers allow it; if the worker thread returns, every call that ran to its end had exactly one callback and nothing is pending |
| `SubmitFence.SubmissionIsComplete` | include/vkexec/submit_scope.hpp:385-430 | in every interleaving, a fence submission that was called back went through retirement, destruction of its semaphore and fence, return of its command buffer, then its pool, then its descriptor sets, and one receiver signal, in this order; the signal is an error exactly if the record failed, stopped exactly if it did not fail and some poll saw the stop, the value otherwise |
| `SubmitFence.OpState.CompleteSubmitted` | include/vkexec/submit_scope.hpp:414-418 | the callback, in any run that makes it: exactly what the open scope holds then is given back, all that happened to the submission is complete, the one signal is error, stopped or value as the actions of the run decide, and the scope is left empty |
| `SubmitFence.OpState.SubmitAndComplete` | include/vkexec/submit_scope.hpp:385-430 | from start to the signal, on every branch: what the scope held at the start is given back once, and the one signal is stopped if a stop was requested, error if the submission was refused, and else error, stopped or value as the run decides |
| `SubmitFence.SubmitAsync` | src/vkexec/context_runtime.cpp:293-330 | a failed submission leaves neither semaphore nor fence behind and names neither |
| `SubmitFence.OpState.Start` | include/vkexec/submit_scope.hpp:385-430 | start leaves a job with the waiter exactly when not stopped and submitted; otherwise everything made is gone, the scope is returned and one signal is sent, stopped or error |
| `SubmitFence.OpState.ReleaseScopeAndComplete` | include/vkexec/submit_scope.hpp:192-202 | the scope is returned in full before the one signal: error exactly if failed, stopped exactly if stopped and not failed, else the value |
| `SubmitFence.OpState.CompleteAfterReclaim` | include/vkexec/submit_scope.hpp:179-190 | the one signal is an error exactly if failed, stopped exactly if stopped and not failed, and the value exactly if neither |
| `PresenterFrame.FenceWaitFreesSlot` | src/vkexec_graphics/presenter_frame.cpp:68-72 | the wait on a slot's fence never hangs, and afterwards no submission made with the slot is pending |
| `PresenterFrame.WaitFreesImage` | src/vkexec_graphics/presenter_frame.cpp:88-96 | waiting on the fence recorded for an image is enough for the image, although that fence may since have been used for another image |
| `PresenterFrame.AcquireOpensFrame` | src/vkexec_graphics/presenter_frame.cpp:74-101 | when an image is acquired its semaphore has no signal or wait outstanding, and the frame opens with no pending work on the image |
| `PresenterFrame.OpenImageIsFree` | src/vkexec_graphics/presenter_frame.cpp:103-148 | until a frame is submitted nothing pending uses its slot, its fence or its image |
| `PresenterFrame.ResetKeepsSound` | src/vkexec_graphics/presenter_frame.cpp:103-125 | the slot's fence and command buffer are reset only when no pending submission uses them |
| `PresenterFrame.SubmitKeepsSound` | src/vkexec_graphics/presenter_frame.cpp:130-148 | at submission the image's render_finished semaphore has no signal left from its last use, and the invariant is kept |
| `PresenterFrame.PresentKeepsMachine` | src/vkexec_graphics/presenter_frame.cpp:210-230 | a present, taken or failed, keeps the invariant, whether or not the engine saw it |
| `PresenterFrame.ConsumeOnlyWaits` | src/vkexec_graphics/presenter_frame.cpp:267-314 | the empty submission of an abandonment does nothing but consume the acquired semaphore |
| `PresenterFrame.ClearKeepsSound` | src/vkexec_graphics/presenter_frame.cpp:252-258 | presenting the cleared image without a wait keeps the invariant |
| `PresenterFrame.ReplaceKeepsSound` | src/vkexec_graphics/presenter_frame.cpp:316-356 | after abandonment the slot and image have new, idle objects and no entry names the old fence |
| `PresenterFrame.ReplaceLeaksNothing` | src/vkexec_graphics/presenter_frame.cpp:316-356 | replacing sync objects leaks none and destroys none twice |
| `PresenterFrame.IdleKeepsSound` | src/vkexec_graphics/presenter_frame.cpp:232-247 | waiting for the device leaves nothing pending and keeps the invariant |
| `Presenter.Presenter.GpuRuns` | src/vkexec_graphics/presenter_frame.cpp:61-148 | the device and presentation engine may run at any point without breaking the invariant |
| `Presenter.Presenter.AcquireFrame` | src/vkexec_graphics/presenter_frame.cpp:61-101 | from what the calls answer, exactly when a frame is acquired, when nothing is (and a resize becomes required), and when a lookup throws; a frame is acquired into a slot and onto an image without pending work |
| `Presenter.Presenter.OpenUndrawable` | src/vkexec_graphics/presenter_frame.cpp:80-100 | without framebuffers an acquired image throws exactly if the wait for the image, where there is one, succeeds; if the image has an entry, it and the open flag are set before |
| `Presenter.Presenter.BeginFrame` | src/vkexec_graphics/presenter_frame.cpp:103-125 | exactly when a recorded frame starts, with a reset fence and an idle slot; without framebuffers no frame begins |
| `Presenter.Presenter.FinishFrameRecording` | src/vkexec_graphics/presenter_frame.cpp:150-159 | recording ends exactly for the current frame while it is recording |
| `Presenter.Presenter.SubmitFrame` | src/vkexec_graphics/presenter_frame.cpp:130-148 | a submission with the acquired wait, the image's signal and the slot's fence is allowed on the device and keeps the invariant |
| `Presenter.Presenter.CallerSubmits` | src/vkexec_graphics/presenter_frame.cpp:182-199 | the same for an application that submits with the handles it is given |
| `Presenter.Presenter.EndFrame` | src/vkexec_graphics/presenter_frame.cpp:127-148 | succeeds exactly if the frame is current, recording ends, the submission is accepted and the present is no error; then the other slot is next, and a resize is required if it was before or the present was stale |
| `Presenter.Presenter.PresentSubmitted` | src/vkexec_graphics/presenter_frame.cpp:210-230 | succeeds exactly for the current frame that is not being recorded when the present is no error; a stale present requires a resize; a failed one leaves the frame open, to be abandoned |
| `Presenter.Presenter.CurrentIsOpen` | src/vkexec_graphics/presenter_frame.cpp:161-180 | a frame is current exactly if one is open and it names its slot, its image and that image's framebuffer |
| `Presenter.Presenter.StaleNeedsResize` | src/vkexec_graphics/presenter_frame.cpp:61-64 | after a stale present no frame is acquired whatever the engine answers, and a resize to the same size recreates the swapchain |
| `Presenter.Presenter.AbandonFrame` | src/vkexec_graphics/presenter_frame.cpp:232-265 | exactly when it succeeds, from what the calls answer; the frame is then closed with the device quiet and its swapchain and framebuffers as they were, or its swapchain gone and a resize required; also exactly when nothing may be called any more |
| `Presenter.Presenter.ConsumeAcquiredImageWait` | src/vkexec_graphics/presenter_frame.cpp:267-314 | the acquired semaphore is consumed exactly if recording, fence, submission and wait succeed |
| `Presenter.Presenter.ReplaceAbandonedFrameSync` | src/vkexec_graphics/presenter_frame.cpp:316-356 | all three objects are replaced exactly if all were made, else none is, and entries naming the old fence become null |
| `Presenter.Presenter.Resize` | src/vkexec_graphics/presenter_frame.cpp:25-35 | refused while a frame is open; a zero extent suspends; otherwise a success leaves a presenter that can draw, and at the size asked for, exactly unless the size is the recorded one, no flag is set, and the last recreation had failed or the framebuffers are of another size |
| `Presenter.Presenter.ResizeTwice` | src/vkexec_graphics/presenter_frame.cpp:33-57 | from every presenter at rest: a resize to another size that breaks off, then the same again, reports failure and then success, and leaves no framebuffers and nothing blocked |
| `Presenter.Presenter.ResizeUnwaited` | src/vkexec_graphics/presenter_frame.cpp:33-45 | from every presenter that draws at the recorded size: a resize whose wait for the device fails, then the same again, reports failure and then success, and frames go on at the old size |
| `Presenter.BrokenAfterResize` | src/vkexec_graphics/presenter_frame.cpp:25-101 | the input that fails: a new presenter, 800 by 600 asked for twice, the first time without a depth attachment; the second reports success and no frame begins |
| `Presenter.Presenter.RecreateSwapchain` | src/vkexec_graphics/presenter_frame.cpp:37-59 | succeeds exactly if every call does; then every image has the framebuffer and semaphore made for it and a null entry; failure leaves the flags as they were, so acquisition may stay enabled, and the presenter broken exactly if the wait for the device succeeded or it was broken before |
| `Presenter.Presenter.CreateSwapchainSync` | src/vkexec_graphics/presenter.cpp:361-380 | one new semaphore and one null entry an image, exactly if all are made, none twice |
| `Presenter.Presenter.DestroySwapchainSync` | src/vkexec_graphics/presenter.cpp:382-394 | every semaphore is destroyed once, while unused |
| `Presenter.Presenter.CleanupSwapchain` | src/vkexec_graphics/presenter.cpp:396-405 | framebuffers, semaphores and swapchain are gone, nothing else is |
| `Presenter.Presenter.CreateFramebuffers` | src/vkexec_graphics/presenter.cpp:289-313 | one framebuffer an image, in order, exactly if all are made |
| `Presenter.Presenter.constructor` | src/vkexec_graphics/presenter.cpp:315-359 | an initialised presenter satisfies the invariant: fences signalled, nothing pending |
| `Presenter.Presenter.Destroy` | src/vkexec_graphics/presenter.cpp:140-160 | with no frame open, everything the presenter made is destroyed, each object while unused |
| `ProfilerPages.TakeKeepsPartition` | src/vkexec_profiling/profiler.cpp:148-151 | a reserved pair was free, and each page's pairs are still split into free, held and quarantined |
| `ProfilerPages.ReturnKeepsPartition` | src/vkexec_profiling/profiler.cpp:154-160 | a released pair goes back to the page it came from |
| `ProfilerPages.QuarantineKeepsPartition` | src/vkexec_profiling/profiler.cpp:95-99 | a quarantined pair is neither free nor held again |
| `ProfilerPages.NewPageKeepsPartition` | src/vkexec_profiling/profiler.cpp:132-147 | a new page brings exactly the even indices below queries_per_pool |
| `ProfilerPages.CountPairs` | src/vkexec_profiling/profiler.cpp:142-145 | a page's free and outstanding pairs number half its queries |
| `ProfilerPages.FreeListFits` | src/vkexec_profiling/profiler.cpp:142 | the free list never outgrows its reserved capacity, so releasing cannot allocate |
| `ProfilerPages.PairsAreConserved` | src/vkexec_profiling/profiler.cpp:117-160 | over all pages, free, held and quarantined pairs add up to all there are |
| `Profiler.State.Reserve` | src/vkexec_profiling/profiler.cpp:117-152 | which error comes when; a failure changes nothing; success hands out a pair of the right family that nobody held |
| `Profiler.State.FindPage` | src/vkexec_profiling/profiler.cpp:128-131 | the first page of the family with a free pair |
| `Profiler.State.ReleaseSlot` | src/vkexec_profiling/profiler.cpp:154-160 | the pair is free again and the count one lower |
| `Profiler.State.Publish` | src/vkexec_profiling/profiler.cpp:208-216 | an event is buffered, or counted as dropped when the buffer is full; published events are those taken, buffered and dropped |
| `Profiler.State.TakeCompleted` | src/vkexec_profiling/profiler.cpp:218-224 | everything buffered is handed over once, in order |
| `Profiler.Allocation.Release` | src/vkexec_profiling/profiler.cpp:87-93 | the slot is returned at most once; an empty allocation returns nothing |
| `Profiler.Allocation.Quarantine` | src/vkexec_profiling/profiler.cpp:95-99 | the slot is let go without being returned, and keeps counting as in flight |
| `Profiler.Allocation.MoveFrom` | src/vkexec_profiling/profiler.cpp:75-83 | what was held is returned first, then the other's slot is held; self-assignment does nothing |
| `Profiler.Allocation.TakeOver` | src/vkexec_profiling/profiler.cpp:71-73 | a moved-from allocation holds nothing |
| `ManualCapture.Capture.ScopedRegion` | src/vkexec_profiling/manual_capture.cpp:96-113 | a region gets a slot no other live region has; refused after submission or when empty, and then nothing changes |
| `ManualCapture.Capture.EndRegion` | src/vkexec_profiling/manual_capture.cpp:115-124 | a region ends once |
| `ManualCapture.Capture.MarkSubmitted` | src/vkexec_profiling/manual_capture.cpp:144-153 | accepted exactly once, with no region open and a fence |
| `ManualCapture.Capture.ResolveAfterGpu` | src/vkexec_profiling/manual_capture.cpp:155-182 | only after the fence: every region is published once, in order, and every slot returned; not ready or in error, with which error, nothing changes, except that a lost device quarantines the slots |
| `ManualCapture.Capture.DiscardAfterGpu` | src/vkexec_profiling/manual_capture.cpp:184-196 | the same without publishing |
| `ManualCapture.Capture.Quarantine` | src/vkexec_profiling/manual_capture.cpp:198-205 | every slot stays out and keeps counting against the limit |
| `ManualCapture.Capture.Release` | src/vkexec_profiling/manual_capture.cpp:207-216 | every slot is returned once |
| `ManualCapture.Capture.MoveFrom` | src/vkexec_profiling/manual_capture.cpp:77-92 | what this capture held is released, then it is the other in every field, and the other is empty |
| `ManualCapture.Capture.TakeOver` | src/vkexec_profiling/manual_capture.cpp:68-75 | the moved-from capture is empty |
| `Utf8.ValidUtf8` | src/vkexec_profiling/chrome_trace.cpp:72-90 | the loop accepts exactly the byte strings that encode a sequence of Unicode scalar values as section 3 of RFC 3629 does |
| `Utf8.AcceptsIsUtf8` | src/vkexec_profiling/chrome_trace.cpp:44-90 | the lead-byte classes and narrowed continuation ranges describe exactly those strings, both ways |
| `Utf8.DecodeEncodes` | src/vkexec_profiling/chrome_trace.cpp:44-70 | an accepted character is the shortest encoding of a scalar value: no overlong form, no surrogate, nothing above 0x10FFFF |
| `Utf8.EncodingIsInjective` | src/vkexec_profiling/chrome_trace.cpp:72-90 | different texts have different encodings |
| `JsonString.WriteJsonString` | src/vkexec_profiling/chrome_trace.cpp:92-128 | the stream grows by the quoted and escaped name |
| `JsonString.RoundTrip` | src/vkexec_profiling/chrome_trace.cpp:92-128 | a reader for the strings of section 7 of RFC 8259 recovers every byte string exactly and stops where it ends |
| `JsonString.NoControlBytes` | src/vkexec_profiling/chrome_trace.cpp:117-122 | no raw control byte is written |
| `JsonString.QuotingKeepsUtf8` | src/vkexec_profiling/chrome_trace.cpp:92-128 | what is written is UTF-8 exactly when the name is |
| `Ticks.ElapsedRecoversTicks` | src/vkexec_profiling/chrome_trace.cpp:175-178 | for counters of 1 to 64 valid bits, whatever the other bits read, the masked difference is the true number of ticks if fewer than 2^bits passed |
| `Ticks.ElapsedFits` | src/vkexec_profiling/detail/timestamp_math.hpp:18-19 | a difference never exceeds the counter's range |
| `ChromeTrace.ChooseOrigin` | src/vkexec_profiling/chrome_trace.cpp:147-166 | the scan succeeds exactly when the valid events are usable, named in UTF-8 and pairwise in one timestamp domain, although the origin moves as it goes; the origin has the least region index |
| `ChromeTrace.ScannedIsExportable` | src/vkexec_profiling/chrome_trace.cpp:137-143 | sharing a domain with an origin that moves is sharing one with every other valid event |
| `ChromeTrace.WriteEntries` | src/vkexec_profiling/chrome_trace.cpp:168-194 | one entry a valid event, in order, each against the origin |
| `ChromeTrace.WriteChromeTrace` | src/vkexec_profiling/chrome_trace.cpp:145-198 | exactly when a trace is exported, and then it holds every valid event in order and counts the rest as omitted |
| `ChromeTrace.ValidOnesAre` | src/vkexec_profiling/chrome_trace.cpp:168-174 | the events exported are exactly the valid ones, in the order they were taken |
| `ChromeTrace.EntryHolds` | src/vkexec_profiling/chrome_trace.cpp:175-194 | which of the event's fields goes where in its entry, what its times in microseconds are, and that they convert exactly if neither is above the largest number |
| `ChromeTrace.StartIsTrueDistance` | src/vkexec_profiling/chrome_trace.cpp:175-180 | an exported start is the true distance from the origin across wrap-around |
| `ChromeTrace.ResolvedEventsFit` | src/vkexec_profiling/profiler.cpp:193-204 | events one profiler resolves on one queue family of one submission never stop an export for their timestamps or domain |
| `CommandPools.Context.AcquireCommandPool` | src/vkexec/context_runtime.cpp:97-118 | exactly when a pool is handed out: it is of the family, was cached or is new, has no live command buffer, and is in no other hands |
| `CommandPools.Context.ReleaseCommandPool` | src/vkexec/context_runtime.cpp:120-137 | a leased pool is cached under its family exactly if its reset succeeds, else destroyed; null is ignored |
| `CommandPools.Context.AllocateCommandBuffer` | src/vkexec/context_runtime.cpp:210-239 | a new command buffer with a pool of its own; any failure leaves the pool cached or destroyed and other leases alone |
| `CommandPools.Context.FreeCommandBuffer` | src/vkexec/context_runtime.cpp:241-256 | the buffer is freed and its pool returned, once; unknown handles are ignored |
| `CommandPools.Context.Teardown` | src/vkexec/context_runtime.cpp:38-74 | with nothing leased, every pool ever made is destroyed, each once |
| `SubmitScope.Scope.Open` | src/vkexec/submit_scope.cpp:170-204 | succeeds exactly if pool, command buffer and begin do; then one pool and one command buffer are leased to the scope, else nothing |
| `SubmitScope.Scope.Release` | src/vkexec/submit_scope.cpp:215-241 | command buffer, then pool, then descriptor sets, each given back once; a second release does nothing |
| `SubmitScope.Scope.ReturnCommands` | src/vkexec/submit_scope.cpp:215-241 | the command buffer is freed before its pool is returned, and the pool ends cached or destroyed |
| `SubmitScope.Scope.MoveFrom` | include/vkexec/submit_scope.hpp:126-138 | the old lease is returned, the other's taken over, and the other holds nothing; self-assignment does nothing |
| `SubmitScope.Scope.TakeOver` | include/vkexec/submit_scope.hpp:118-125 | a moved-from scope holds nothing |
| `SubmitScope.Scope.ReleaseBeside` | src/vkexec/submit_scope.cpp:215-241 | releasing one scope leaves another's lease untouched |
| `DescriptorCache.AllocateComputeSet` | src/vkexec/submit_scope.cpp:115-133 | a fresh set holds exactly the bindings |
| `DescriptorCache.WrittenHolds` | src/vkexec/submit_scope.cpp:104-133 | slot by slot, what a set holds: the last binding written to the slot |
| `DescriptorCache.DescriptorCleanup.BindOrAllocateSet` | src/vkexec/submit_scope.cpp:135-166 | the set returned holds exactly what a fresh allocation would; live sets are never rewritten; it is reused exactly while the pipeline and bindings are the same; one entry a pipeline |
| `DescriptorCache.DescriptorCleanup.Release` | src/vkexec/submit_scope.cpp:94-102 | every set tracked is freed once, and no other |
| `DescriptorCache.DescriptorCleanup.Track` | include/vkexec/submit_scope.hpp:62-66 | a set allocated elsewhere will be freed with the rest |
| `HostAgent.RunsInAcceptanceOrder` | src/vkexec/host_agent.cpp:69-117 | what has run, nested work included, is always a beginning of what one FIFO queue of the accepted tasks would do, and all of it once the thread has left |
| `HostAgent.AcceptedInOrder` | src/vkexec/host_agent.cpp:79-85 | exactly the calls before shutdown are accepted, in order |
| `HostAgent.ExitedHasRunEverything` | src/vkexec/host_agent.cpp:99-117 | when the thread has left, each task has run as often as it was enqueued, inline tasks too |
| `HostAgent.ShutdownHasDrained` | src/vkexec/host_agent.cpp:88-97 | in every run, a shutdown call that has returned has run everything accepted if it set the flag itself; if it found the flag set, exactly when nothing is queued, in the batch or in progress at that moment |
| `HostAgent.OnlyTheFirstShutdownTells` | src/vkexec/host_agent.cpp:90-96 | the return of a shutdown means everything accepted has run, in all runs, exactly for the call that did not find the flag set |
| `HostAgent.SecondShutdownReturnsUndrained` | src/vkexec/host_agent.cpp:92 | the run that fails: a second shutdown has returned and an accepted task has not begun |
| `HostAgent.DrainedStays` | src/vkexec/host_agent.cpp:79-82 | once everything accepted has run after shutdown, nothing more is accepted or begun |
| `HostAgent.EveryStartCompletesOnce` | include/vkexec/scheduler.hpp:100-142 | every start of a schedule operation from another thread has exactly one completion: stopped or error inline, or a run of its task |
| `HostAgent.StartsAreAccountedFor` | include/vkexec/scheduler.hpp:100-142 | a start from another thread completes inline or leaves exactly one task, at any moment |
| `HostAgent.StartsAreAnswered` | include/vkexec/scheduler.hpp:100-142 | how a start completes, from the actions alone: stopped exactly if a stop was requested, an error exactly if not and it came after shutdown |
| `HostAgent.StepsDecreaseCost` | src/vkexec/host_agent.cpp:105-116 | every step of the thread brings its end nearer; after shutdown nothing delays it |
| `HostAgent.ThreadNeverStuck` | src/vkexec/host_agent.cpp:88-117 | after shutdown the thread always has a step until it has left |
| `HostAgent.ThreadLeaves` | src/vkexec/host_agent.cpp:88-117 | after shutdown, in every continuation, the thread takes no more steps than the bound, and when it can take none it has left with every accepted task run |
| `HostAgent.ThreadCanLeave` | src/vkexec/host_agent.cpp:99-117 | from every state after shutdown the thread by itself leaves within the bound |
| `HostAgent.Agent.Enqueue` | src/vkexec/host_agent.cpp:79-85 | accepted exactly before shutdown, at the end of the queue |
| `HostAgent.Agent.Start` | include/vkexec/scheduler.hpp:100-142 | start of a schedule operation: stopped if a stop was requested, else an error without a context or after shutdown, else one task at the end of the queue |
| `HostAgent.Agent.RequestShutdown` | src/vkexec/host_agent.cpp:88-96 | the flag is set and no task touched; the call goes on to join exactly if it set the flag, and has returned otherwise |
| `HostAgent.Agent.Join` | src/vkexec/host_agent.cpp:96-97 | a shutdown that joined returns with everything accepted run |
| `HostAgent.Agent.RunTask` | src/vkexec/host_agent.cpp:73-77 | a task runs to its end, with what it enqueues run inline at that point |
| `HostAgent.Agent.RunOnce` | src/vkexec/host_agent.cpp:105-116 | one turn runs the swapped-out queue whole, in order, with everything enqueued before; it leaves only after shutdown with nothing pending, and waits on only if nothing was pending and no shutdown asked for |
| `HostAgent.Agent.RunAgent` | src/vkexec/host_agent.cpp:99-117 | what was pending at first is run, in order, by the first turn; if the thread leaves, its log is what one FIFO queue of all accepted tasks does |
| `PassOrder.BeforeIsEarlier` | include/vkexec/pass.hpp:517-531 | the order of a graph has no cycles |
| `PassOrder.ChainOrdersAll` | include/vkexec/pass.hpp:520-525 | an implicit chain orders exactly each earlier step before each later one |
| `PassOrder.NewNodeOrder` | include/vkexec/pass.hpp:526-530 | a new node comes after exactly its predecessors and what is before them |
| `PassOrder.ExtensionKeepsOrder` | include/vkexec/pass.hpp:526-530 | appending changes no order among the steps already there |
| `PassGraph.DynamicPassGraph.Append` | include/vkexec/pass.hpp:499-511 | the new step comes after the last one, and queues and predecessors stay aligned with steps |
| `PassGraph.DynamicPassGraph.AppendAfter` | include/vkexec/pass.hpp:517-531 | the new step comes after the named ones and a chain is written out in the same order; queues stay aligned exactly if they were |
| `PassGraph.SwitchKeepsOrder` | include/vkexec/pass.hpp:520-525 | writing the chain out changes no order among the steps there |
| `PassGraph.BuildGraph` | include/vkexec/pass.hpp:495-531 | any mix of appends gives an aligned graph with exactly the order asked for |
| `ExecutionPlan.PlanBatches` | include/vkexec/detail/pass_execution.hpp:24-43 | the batches cut the steps into runs, each on its steps' queue, adjacent ones on different queues, each waiting for the one before |
| `ExecutionPlan.PlanDag` | include/vkexec/detail/pass_execution.hpp:47-68 | accepted exactly when aligned, pointing backwards and free of repetitions; then one batch a node with those predecessors |
| `ExecutionPlan.PlanAfterAppend` | include/vkexec/pass.hpp:517-531 | a graph extended by append_after can be planned exactly if its queues were aligned before |
| `ExecutionPlan.ImplicitQueuesAreRefused` | include/vkexec/detail/pass_execution.hpp:47-52 | the input that fails: one step with its queue left implicit and one more after it |
| `ExecutionPlan.ValidateExecutionBatches` | include/vkexec/detail/pass_execution.hpp:118-135 | accepts exactly plans that partition the steps and are acyclic |
| `ExecutionPlan.ValidPlansAre` | include/vkexec/detail/pass_execution.hpp:118-135 | what is accepted: nonempty runs of steps, each beginning where the one before ends, from the first step to the last, that wait for earlier ones only |
| `ExecutionPlan.AddResourceDependencies` | include/vkexec/detail/pass_execution.hpp:304-322 | every dependency is met within a batch or by a wait, no wait is dropped, none is added that no dependency calls for, and no cycle appears |
| `ExecutionPlan.DependenciesOrderBatches` | include/vkexec/detail/pass_execution.hpp:304-322 | a chain of dependencies between steps stays in one batch or leads along batches that wait for one another |
| `ExecutionPlan.OneBatchAStep` | include/vkexec/detail/pass_execution.hpp:118-135 | each step is recorded by exactly one batch |
| `ExecutionPlan.TerminalBatches` | include/vkexec/detail/pass_execution.hpp:145-156 | exactly the batches nothing waits for |
| `ExecutionPlan.TerminalsCoverAll` | include/vkexec/detail/pass_execution.hpp:145-156 | every batch is terminal or before one that is |
| `PreparedGraph.PlanResourceSync` | include/vkexec/detail/pass_execution.hpp:221-238 | accepted exactly if every step's extents and uses are accepted in turn on its batch's queue, as a condition on the declarations alone; then they are recorded in order |
| `PreparedGraph.PrepareGraph` | include/vkexec/detail/pass_execution.hpp:330-337 | succeeds exactly if the plan partitions the steps without cycles and the declarations are accepted in turn; the prepared plan then orders every two declared buffer uses that share a byte and may not run side by side, on whatever queues, keeps every wait it was given, and adds one only between batches that use a byte in common |
| `PreparedGraph.HazardIsPlanned` | include/vkexec/detail/pass_execution.hpp:304-322 | what the tracker finds to be a hazard, the batches order |
| `GraphEdges.OutEdgesAreExact` | include/vkexec/detail/graph_submission_sync.hpp:94-103 | the signals of a batch are for exactly its outgoing edges, each once |
| `GraphSync.Accumulate` | include/vkexec/detail/graph_submission_sync.hpp:41-48 | counts become offsets |
| `GraphSync.PrepareStorage` | include/vkexec/detail/graph_submission_sync.hpp:50-79 | there is room for exactly the waits and signals each batch needs |
| `GraphSync.FillEdges` | include/vkexec/detail/graph_submission_sync.hpp:91-103 | every edge's wait, and on binary semaphores its signal, lands in its batch's part of the list |
| `GraphSync.PrepareBatchSync` | include/vkexec/detail/graph_submission_sync.hpp:83-119 | each batch's part of the lists is exactly its waits and its signals; a counting semaphore is signalled once, and only if something waits for it |
| `GraphSync.EdgeIsSignalled` | include/vkexec/detail/graph_submission_sync.hpp:96-103 | the wait of an edge is signalled by the batch the edge comes from |
| `GraphSync.OnlyTheSourceSignals` | include/vkexec/detail/graph_submission_sync.hpp:96-113 | and by no other batch; a binary semaphore has one signal and one wait |
| `GraphSync.OrderedBatchesDoNotOverlap` | include/vkexec/detail/pass_graph_submit.hpp:124-141 | on a device that starts a batch when its waits are met, a batch ordered before another has finished when the other starts |
| `GraphRun.PrepareTerminal` | include/vkexec/detail/pass_graph_submit.hpp:321-344 | one batch is added exactly if predecessors are explicit, nothing is presented and two or more batches are waited for by none: it is on the given queue, holds no step and waits for exactly those; presented, only the last batch changes and waits for exactly the others among them; that the scope opens decides whether it succeeds |
| `GraphRun.ChainJoinsAll` | include/vkexec/detail/pass_graph_submit.hpp:324 | an implicit chain needs no join |
| `GraphRun.LastBatchFinishesLast` | include/vkexec/detail/pass_graph_submit.hpp:185-199 | when the last batch's fence signals every batch has finished, so releasing all scopes then is safe |
| `GraphRun.HazardsDoNotOverlap` | include/vkexec/detail/pass_graph_submit.hpp:143-213 | from declarations to the device: uses of one byte that may not run side by side are in one batch, or the first's batch has finished before the second's starts |
| `ResourceRanges.Normalize` | include/vkexec/detail/resource_ranges.hpp:28-36 | exactly when a 64-bit offset and size are refused, and what range they name |
| `ResourceRanges.Intersection` | include/vkexec/detail/resource_ranges.hpp:51-57 | the bytes in both ranges |
| `ResourceRanges.OverlapIsSharedByte` | include/vkexec/detail/resource_ranges.hpp:38-40 | ranges overlap exactly when they share a byte |
| `ResourceRanges.Split` | include/vkexec/detail/resource_ranges.hpp:63-71 | two ranges with the same bytes together, cut at the position |
| `BufferRegions.PartitionBufferRegions` | include/vkexec/detail/resource_state_tracker_helpers.hpp:285-339 | the regions are cut at the ends of the range without moving any byte to another state, uncovered bytes of the range open as unused; refused exactly when an open end is undecided |
| `BufferRegions.MergeBufferRegions` | include/vkexec/detail/resource_state_tracker_helpers.hpp:341-359 | merging changes no byte's state and leaves no two mergeable neighbours |
| `BufferHazards.UseKeepsByte` | include/vkexec/detail/resource_state_tracker.hpp:357-438 | after one more use of a byte, its frontier still accounts for every use so far, and every earlier conflicting use leads to the new one |
| `BufferHazards.ConflictIsOrdered` | include/vkexec/detail/resource_state_tracker.hpp:357-438 | the dependencies added are enough: a conflicting earlier use leads to the new one by dependencies |
| `BufferHazards.AdvanceKeepsFrontier` | include/vkexec/detail/resource_state_tracker.hpp:388-438 | readers stay reads of one family after the anchor, in step order |
| `BufferHazards.AdvanceKeepsKnown` | include/vkexec/detail/resource_state_tracker.hpp:388-438 | forgetting readers and anchors forgets no use |
| `BufferHazards.EdgeIsJoined` | include/vkexec/detail/resource_state_tracker.hpp:357-438 | a use depends only on steps, and gathers only reads, that used one of its bytes |
| `TrackedBuffers.UseKeepsSound` | include/vkexec/detail/resource_state_tracker.hpp:498-535 | the invariant over all buffers is kept by an accepted declaration: every two uses of a byte that conflict are ordered |
| `ResourceStateTracker.HazardIsOrdered` | include/vkexec/detail/resource_state_tracker.hpp:498-535 | between any two calls, conflicting uses of a byte are in different steps, the earlier leading to the later |
| `ResourceStateTracker.BarrierSynchronizes` | include/vkexec/detail/resource_state_tracker.hpp:388-438 | a barrier is there when one is needed, its source covers every access on the same queue that has to be waited for, its destination is the use |
| `ResourceStateTracker.TransferHalvesMatch` | include/vkexec/detail/resource_state_tracker.hpp:400-421 | release and acquire of an ownership transfer name the same bytes and families, and the release covers the last use |
| `ResourceStateTracker.EveryByteHasItsBarrier` | include/vkexec/detail/resource_state_tracker.hpp:522-531 | every overlapped region that needs a barrier has one over all of its bytes |
| `ResourceStateTracker.UseIsRecorded` | include/vkexec/detail/resource_state_tracker.hpp:521-533 | one more use: for every byte it uses, the barrier that the uses of that byte so far call for is recorded before its step, and if the byte changes hands the release after the last step that had it; no earlier barrier is lost |
| `BarrierChains.HazardsAreGuarded` | include/vkexec/detail/resource_state_tracker.hpp:357-438 | in every state the tracker reaches between calls, for every byte: each access has its barrier and release recorded, and every two conflicting accesses are joined by a chain of barriers, of transfers whose release and acquire reach both sides, and of semaphores, exactly if no access is stranded or cut off |
| `BarrierChains.ConflictsAreChained` | include/vkexec/detail/resource_state_tracker.hpp:379-438 | the same about any sequence of accesses a byte accepts; stranded is a read that joins a read to which ownership moved, when neither that one's acquire nor a semaphore reaches it; cut off is the read to which ownership moved, when reads of its queue have followed and the write or the release that ends them waits for scopes that do not cover it |
| `BarrierChains.CutOffIsUnchained` | include/vkexec/detail/resource_state_tracker.hpp:400-432 | a cut-off read and the write or transfer that follows conflict, and no chain joins them |
| `BarrierChains.StrandedIsUnchained` | include/vkexec/detail/resource_state_tracker.hpp:379-398 | a stranded read conflicts with the use before the transfer, and no chain joins them |
| `BarrierChains.OneFamilyIsChained` | include/vkexec/detail/resource_state_tracker.hpp:379-438 | on a buffer that is shared by all families, or used in one, every two conflicting accesses are chained |
| `BarrierChains.TransferredRead` | include/vkexec/detail/resource_state_tracker.hpp:379-437 | the runs that fail: storage_compute write in one family, uniform_fragment and uniform_vertex reads in another, and a transfer_destination write there or in a third family are all accepted; no chain joins the first write and the second read, nor the first read and the last write |
| `BarrierChains.FrontierIs` | include/vkexec/detail/resource_state_tracker.hpp:368-398 | the frontier is the last access that ended a group of readers and the reads since, all of its family |
| `ResourceStateTracker.SourceScopeOf` | include/vkexec/detail/resource_state_tracker_validation.hpp:104-122 | the union of the readers' scopes, or the anchor's, on the same queue |
| `ResourceStateTracker.Clamped` | include/vkexec/detail/resource_state_tracker_validation.hpp:28-35 | a range within the registered size, with the same bytes |
| `ResourceStateTracker.Tracker.AddDependency` | include/vkexec/detail/resource_state_tracker.hpp:123-129 | no self-dependency, none twice, and the rest is kept |
| `ResourceStateTracker.Tracker.AdvanceBufferRegion` | include/vkexec/detail/resource_state_tracker.hpp:357-438 | the region's new state, with exactly its dependencies added and exactly its barriers appended |
| `ResourceStateTracker.NewDependenciesAreJustified` | include/vkexec/detail/resource_state_tracker.hpp:498-535 | between any two calls, a dependency joins two steps that use some byte in common |
| `ResourceStateTracker.Tracker.ValidateBufferUseConflicts` | include/vkexec/detail/resource_state_tracker_validation.hpp:82-102 | refuses exactly a second use of a byte in one step, unless both are reads of one family and queue and no write or transfer of that step came before |
| `ResourceStateTracker.Tracker.UseBuffer` | include/vkexec/detail/resource_state_tracker.hpp:498-535 | accepted exactly when the handle, step, usage, range and conflicts allow it, said of the uses so far and of the state; refused, the tracker is unchanged; accepted, the use is recorded with its barriers |
| `ResourceStateTracker.Tracker.RegisterExtent` | include/vkexec/detail/resource_state_tracker.hpp:443-459 | accepted exactly when well formed and new or registered the same before; exactly that extent is then known |
| `ResourceStateTracker.Tracker.RememberBuffer` | include/vkexec/detail/resource_state_tracker.hpp:67-76 | before a batch changes a buffer it found, the journal has it |
| `ResourceStateTracker.Tracker.RememberStep` | include/vkexec/detail/resource_state_tracker.hpp:89-103 | before a batch adds barriers to a step, the journal has their number |
| `ResourceStateTracker.Tracker.Begin` | include/vkexec/detail/resource_state_tracker.hpp:19-29 | a batch starts with a journal that restores the present |
| `ResourceStateTracker.Tracker.Rollback` | include/vkexec/detail/resource_state_tracker.hpp:105-121 | the journal restores buffers, dependencies and barriers to exactly what they were when the batch began |
| `ResourceStateTracker.Tracker.UseAll` | include/vkexec/detail/resource_state_tracker.hpp:537-573 | accepted exactly if each extent can be registered in turn and each use is then accepted in turn, a condition on the uses and extents so far; refused, the tracker is exactly as before; accepted, every extent is registered and every declaration recorded in order |
| `BufferAcceptance.RegionsRefuse` | include/vkexec/detail/resource_state_tracker_validation.hpp:82-102 | the regions refuse a use exactly if it shares a byte with a different use of the same step |
| `BufferAcceptance.RegionsUndecided` | include/vkexec/detail/resource_state_tracker_helpers.hpp:285-339 | the cut is undecided exactly where the end of the buffer matters and is not known: a range with an end reaches into bytes that are used alike without end, or a range without one follows uses that all had one |
| `ResourceStateTracker.AcceptsAsUses` | include/vkexec/detail/resource_state_tracker.hpp:498-535 | in any state the tracker reaches, what it accepts next is decided by the uses recorded so far, byte by byte, not by how its regions are cut |
| `Bindings.BindCompute` | src/vkexec/pass.cpp:115-146 | complete exactly when the table matches the layout one to one, with matching kinds and usable resources, else partial; the uses are those of the matching entries, in table order, with each binding's access |
| `Bindings.ComputeCompleteMeans` | src/vkexec/pass.cpp:115-146 | complete means: the lists are of one length, no two entries have one slot, and each entry fills a binding, found by number or by slot, with the kind declared there and something to use |
| `Bindings.ComputeTakenMeans` | src/vkexec/pass.cpp:124-143 | an entry is taken exactly if it fills a binding that no entry before it is on |
| `Bindings.ComputeBuffersAre` | src/vkexec/pass.cpp:115-146 | the uses of the buffers taken come in table order, each with the access its binding declares |
| `Bindings.ComputeImagesAre` | src/vkexec/pass.cpp:115-146 | the same for images; a sampled image is read |
| `Bindings.AppendResourceUse` | src/vkexec/pass.cpp:69-99 | a usable resource adds its one use, an unusable one makes the metadata partial |
| `Bindings.FreshIsOneToOne` | src/vkexec/pass.cpp:124-144 | by pigeonhole, as many entries as bindings, each on a fresh one, are a bijection |
| `Bindings.CompleteLeavesNothingOver` | src/vkexec/pass.cpp:144 | the last scan for a binding not seen never changes a result still complete |
| `Bindings.CompleteRecordsEveryResource` | src/vkexec/pass.cpp:115-146 | complete metadata has one use for every entry but the samplers |
| `Bindings.BindGraphics` | include/vkexec_graphics/graphics_pipeline_resources.hpp:223-274 | complete exactly on a one-to-one match; storage is recorded as read and written, sampled images as read |
| `Bindings.GraphicsTakenMeans` | include/vkexec_graphics/graphics_pipeline_resources.hpp:234-271 | an entry is taken exactly if there is something to use and it is the first of its binding's kind on that binding |
| `Bindings.GraphicsImagesAre` | include/vkexec_graphics/graphics_pipeline_resources.hpp:223-274 | the uses of the images taken come in table order, sampled images read and storage images read and written |
| `Bindings.GraphicsCompleteRecordsEveryResource` | include/vkexec_graphics/graphics_pipeline_resources.hpp:234-271 | one use for every entry but the samplers |
| `LegacyMasks.LegacyStageMask` | src/vkexec/barrier.cpp:15-45 | every stage by its own or its group's legacy name, refused exactly when one has none |
| `LegacyMasks.StageImageIsLeast` | src/vkexec/barrier.cpp:15-45 | the lowered mask is the least legacy mask that names all the stages |
| `LegacyMasks.RefusedStagesHaveNoName` | src/vkexec/barrier.cpp:41-43 | what is refused, no legacy mask names |
| `LegacyMasks.StagesLowerOnce` | src/vkexec/barrier.cpp:29-44 | lowering a lowered mask changes nothing |
| `LegacyMasks.StagesDistribute` | src/vkexec/barrier.cpp:15-45 | lowering distributes over union |
| `LegacyMasks.StagesNeverWeaken` | src/vkexec/barrier.cpp:15-45 | every stage synchronized before is synchronized after |
| `LegacyMasks.LegacyAccessMask` | src/vkexec/barrier.cpp:47-72 | every access by its legacy name, refused exactly when one has none |
| `LegacyMasks.AccessesLowerOnce` | src/vkexec/barrier.cpp:47-72 | lowering a lowered mask changes nothing |
| `LegacyMasks.AccessesDistribute` | src/vkexec/barrier.cpp:47-72 | lowering distributes over union |
| `LegacyMasks.OnlyUniformReadsWeaken` | src/vkexec/barrier.cpp:56-57 | all accesses stay covered exactly when there is no uniform read, or MEMORY_READ is there too, or SHADER_READ is taken to extend to uniform buffers |
| `LegacyMasks.UniformReadCanBeLost` | src/vkexec/barrier.cpp:56-57 | the failing input: a uniform read alone lowers to a mask without the legacy UNIFORM_READ bit |
| `Barriers.LegacyScopeStage` | src/vkexec/barrier.cpp:74-90 | refused exactly for an access without a stage or an unnamed stage; no stage becomes top or bottom of pipe |
| `Barriers.RecordBufferBarrier` | src/vkexec/barrier.cpp:124-165 | exactly when a buffer barrier is recorded, and that only its scopes change on the legacy backend |
| `Barriers.LoweredScopeReaches` | src/vkexec/barrier.cpp:150-155 | a legacy barrier reaches every stage and access the other reaches, but for uniform reads |
| `Barriers.LoweredScopeWaits` | src/vkexec/barrier.cpp:82-90 | stages alone, for execution dependencies, are never lost |
| `Submission.LegacyWaitStage` | src/vkexec/submission.cpp:21-30 | refused exactly for no stage, the host stage and unnamed stages |
| `Submission.LowerLegacySubmit` | src/vkexec/submission.cpp:40-62 | accepted exactly when every wait is lowerable and every signal is after all commands; the same semaphores and values, in order |
| `Submission.LowerSynchronization2Submit` | src/vkexec/submission.cpp:85-112 | commands, waits and signals as they were given |
| `Submission.Submit` | src/vkexec/submission.cpp:127-165 | exactly when something is dispatched, and that both backends ask for the same commands, semaphores and order |
| `Submission.WaitsNeverWeaken` | src/vkexec/submission.cpp:50-55 | no wait is missing or in fewer stages on the legacy backend |
| `Submission.ValuesAgreeWhenCarried` | src/vkexec/submission.cpp:67-83 | both backends ask for the same values exactly when the timeline structure is available or all values are zero |
| `Submission.WaitValueIsDropped` | src/vkexec/submission.cpp:67-83 | the input that fails: a wait for a timeline value is dispatched as a wait for none when the timeline structure is not available |

## Left out

- Vulkan itself: results of calls are parameters, and handles returned by create calls are new ones; `Gpu` in `PresenterFrame.dfy` says what the device and the presentation engine may do.
- C++ exceptions other than the failing lookup in `AcquireFrame`, failing allocations, and the rollback and `std::terminate` paths that exist only for them.
- OddEvenSort.SortOnDevice: the 32-bit index arithmetic of the shader does not wrap only for n below 2^31 - 64, which `Wide` states; NaN values, for which `>` is not the complement of a total preorder, are not covered.
- CompletionWaiter.Waiter.Run: a bounded number of turns of the loop is watched, as the thread may run for ever; that it ends after shutdown is proved about the protocol.
- CompletionWaiter.Waiter.ReclaimSync: the waiter is taken to have a fallback queue on which work without a fence was submitted; draining it is the wait for retirement, and the process that ends without one is not modelled.
- CompletionShutdown.ShutdownHasDrained: a shutdown called from the worker's own callback, which would wait for itself, is not modelled.
- CompletionTermination.WorkerLeaves: fences answer truthfully; a fence that never signals keeps the worker, as it should.
- HostAgent.EveryStartCompletesOnce: starts made on the agent thread itself run inline and are the inner tasks of a task, which `ExitedHasRunEverything` counts; they are not counted as starts.
- HostAgent.ShutdownHasDrained: a shutdown called from a task on the agent thread, which would wait for itself, is not modelled.
- HostAgent.Agent.RunAgent: a bounded number of turns, for the same reason; the thread-local pointer to the current agent is not modelled, and an empty task is taken not to be enqueued.
- Presenter.Presenter.AcquireFrame: once it has thrown nothing more is called, although the presenter says a frame is open; a failed wait after an acquire is terminal, as the image is then lost to the presenter; between the acquire and the wait for the image the device takes no separate step.
- Presenter.Presenter.AbandonFrame: must be called with the state that matches what was submitted; when it fails after its own present, or after a fence wait, nothing is promised.
- Presenter.Presenter.PresentSubmitted: is called for a frame that was submitted, as presenting needs a signal to wait for.
- Presenter.Presenter.EndFrame: the further waits a caller may add to the submission are not modelled.
- Presenter.Presenter.CallerSubmits: applications that submit a frame themselves do so once, with a reset fence and the semaphores they were given.
- Presenter.Presenter.CurrentIsOpen: the extents, images and image views that a frame also carries are not modelled.
- Presenter.Presenter.constructor: a failed initialisation is not modelled.
- Presenter.Presenter.Destroy: destroying a presenter with an open frame is not modelled.
- Presenter.Presenter.RecreateSwapchain: the depth attachment is only made or not made; a swapchain that was made has at least one image.
- Profiler.State.Reserve: a profiler without an owner, which refuses, is not modelled.
- Profiler.State.Publish: the count of dropped events does not wrap at 64 bits.
- ManualCapture.Capture.EndRegion: the region handle and its moves are left out; a region is ended by its index.
- ChromeTrace.WriteChromeTrace: entries are kept as values; printing of numbers and the rounding of doubles are not modelled, conversions to microseconds are exact and fail above a largest number.
- CommandPools.Context.Teardown: destruction of the device, allocator and instance around it is not modelled.
- SubmitScope.Scope.MoveFrom: two scopes of different hosts share neither context nor device.
- DescriptorCache.DescriptorCleanup.BindOrAllocateSet: the locks around the descriptor pool are not modelled.
- PassGraph.DynamicPassGraph.Append: what a step records is an identifier here.
- ResourceStateTracker.Tracker.UseBuffer: buffers only; image uses, layouts and image barriers are not modelled, nor is the table of usages, whose scopes and validity are part of a declaration. Steps are declared in order, as the planner does.
- BarrierChains.ConflictsAreChained: two uses on one queue in one family are taken to have no semaphore between them, as in one batch; a barrier covers the stages it names, not also those that come before them in the pipeline; a dependency between two queues is a semaphore.
- ResourceStateTracker.Tracker.AdvanceBufferRegion: barriers are kept as recorded; their coalescing before submission is not modelled.
- PreparedGraph.PrepareGraph: steps declare buffers and extents only; steps without declarations and the checks across queue families that refuse them are left out.
- GraphSync.OrderedBatchesDoNotOverlap: the device is modelled by start and finish times that honour semaphores.
- Bindings.BindCompute: handles copied from pipeline to binding are left out.
- Barriers.RecordBufferBarrier: memory and image barriers are lowered by the same functions and are not repeated.
- Submission.Submit: locking the queue and the lists' 32-bit counts are not modelled.
- Draw senders, graphics pipelines, shader compilation, feature negotiation, resource wrappers, the glTF and camera code, benchmarks and the other examples.
