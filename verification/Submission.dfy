/** Submitting with either kind of synchronization: src/vkexec/submission.cpp. */
module Submission {
  import opened Optional
  import opened Fallible
  import opened LegacyMasks
  import opened Barriers

  /** semaphore_submit; the value is meant for a timeline semaphore and is zero for a binary one. */
  datatype SemaphoreSubmit = SemaphoreSubmit(semaphore: nat, value: nat, stage: Mask)

  datatype QueueSubmit = QueueSubmit(commands: seq<nat>, waits: seq<SemaphoreSubmit>, signals: seq<SemaphoreSubmit>, fence: nat)

  datatype LegacySubmission = LegacySubmission(waitSemaphores: seq<nat>, waitStages: seq<Mask>, waitValues: seq<nat>,
                                               signalSemaphores: seq<nat>, signalValues: seq<nat>, timelineAvailable: bool)

  /** legacy_submission_view: the values hang on an extension structure that may be unavailable. */
  datatype View = View(timeline: Option<(seq<nat>, seq<nat>)>, waitSemaphores: seq<nat>, waitStages: seq<Mask>, commands: seq<nat>, signalSemaphores: seq<nat>)

  datatype Submission2 = Submission2(commands: seq<nat>, waits: seq<SemaphoreSubmit>, signals: seq<SemaphoreSubmit>)

  datatype Sent = SentLegacy(view: View, legacyFence: nat) | Sent2(submission: Submission2, fence: nat)

  predicate WaitLowerable(stage: Mask) {
    stage != NONE && HOST !in stage && StagesRepresentable(stage)
  }

  /** A legacy submission waits in given stages, but always signals after all commands. */
  predicate SubmitLowerable(info: QueueSubmit) {
    && (forall i | 0 <= i < |info.waits| :: WaitLowerable(info.waits[i].stage))
    && (forall i | 0 <= i < |info.signals| :: info.signals[i].stage == {ALL_COMMANDS})
  }

  /** The same semaphores, in order, with the same values; waits in the lowered stages. */
  predicate Mirrors(lowered: LegacySubmission, info: QueueSubmit) {
    && |lowered.waitSemaphores| == |lowered.waitStages| == |lowered.waitValues| == |info.waits|
    && |lowered.signalSemaphores| == |lowered.signalValues| == |info.signals|
    && (forall i | 0 <= i < |info.waits| ::
          lowered.waitSemaphores[i] == info.waits[i].semaphore && lowered.waitValues[i] == info.waits[i].value
          && lowered.waitStages[i] == StageImage(info.waits[i].stage))
    && (forall i | 0 <= i < |info.signals| ::
          lowered.signalSemaphores[i] == info.signals[i].semaphore && lowered.signalValues[i] == info.signals[i].value)
  }

  method LegacyWaitStage(stage: Mask) returns (r: Result<Mask>)
    ensures r == if WaitLowerable(stage) then Ok(StageImage(stage)) else Err
    ensures r.Ok? <==> stage != {} && HOST !in stage && StagesRepresentable(stage)
  {
    if stage == NONE { return Err; }
    if HOST in stage { return Err; }
    r := LegacyStageMask(stage);
  }

  /** lower_legacy_submit. */
  method LowerLegacySubmit(info: QueueSubmit, timelineAvailable: bool) returns (r: Result<LegacySubmission>)
    ensures r.Ok? <==> SubmitLowerable(info)
    ensures r.Ok? <==>
              && (forall i | 0 <= i < |info.waits| :: var stage := info.waits[i].stage; stage != {} && HOST !in stage && StagesRepresentable(stage))
              && (forall i | 0 <= i < |info.signals| :: info.signals[i].stage == {ALL_COMMANDS})
    ensures r.Ok? ==> Mirrors(r.value, info) && r.value.timelineAvailable == timelineAvailable
    ensures r.Ok? ==>
              && |r.value.waitSemaphores| == |info.waits| && |r.value.signalSemaphores| == |info.signals|
              && (forall i | 0 <= i < |info.waits| ::
                    SemaphoreSubmit(r.value.waitSemaphores[i], r.value.waitValues[i], r.value.waitStages[i]) == info.waits[i].(stage := StageImage(info.waits[i].stage)))
              && (forall i | 0 <= i < |info.signals| ::
                    SemaphoreSubmit(r.value.signalSemaphores[i], r.value.signalValues[i], {ALL_COMMANDS}) == info.signals[i])
  {
    assert SubmitLowerable(info) <==>
           && (forall i | 0 <= i < |info.waits| :: var stage := info.waits[i].stage; stage != {} && HOST !in stage && StagesRepresentable(stage))
           && (forall i | 0 <= i < |info.signals| :: info.signals[i].stage == {ALL_COMMANDS});
    hide StageImage, WaitLowerable;
    var lowered := LegacySubmission([], [], [], [], [], timelineAvailable);
    for i := 0 to |info.waits|
      invariant forall k | 0 <= k < i :: WaitLowerable(info.waits[k].stage)
      invariant Mirrors(lowered, info.(waits := info.waits[..i], signals := [])) && lowered.timelineAvailable == timelineAvailable
    {
      var entry := info.waits[i];
      var stage := LegacyWaitStage(entry.stage);
      if stage.Err? { return Err; }
      lowered := lowered.(waitSemaphores := lowered.waitSemaphores + [entry.semaphore], waitStages := lowered.waitStages + [stage.value],
      waitValues := lowered.waitValues + [entry.value]);
    }
    assert info.waits[..|info.waits|] == info.waits;
    for i := 0 to |info.signals|
      invariant forall k | 0 <= k < i :: info.signals[k].stage == {ALL_COMMANDS}
      invariant Mirrors(lowered, info.(signals := info.signals[..i])) && lowered.timelineAvailable == timelineAvailable
    {
      var entry := info.signals[i];
      if entry.stage != {ALL_COMMANDS} { return Err; }
      lowered := lowered.(signalSemaphores := lowered.signalSemaphores + [entry.semaphore], signalValues := lowered.signalValues + [entry.value]);
    }
    assert info.signals[..|info.signals|] == info.signals;
    r := Ok(lowered);
  }

  /** lower_synchronization2_submit. */
  method LowerSynchronization2Submit(info: QueueSubmit) returns (lowered: Submission2)
    ensures lowered == Submission2(info.commands, info.waits, info.signals)
  {
    lowered := Submission2([], [], []);
    for i := 0 to |info.commands|
      invariant lowered == Submission2(info.commands[..i], [], [])
    {
      lowered := lowered.(commands := lowered.commands + [info.commands[i]]);
    }
    for i := 0 to |info.waits|
      invariant lowered == Submission2(info.commands, info.waits[..i], [])
    {
      var entry := info.waits[i];
      lowered := lowered.(waits := lowered.waits + [SemaphoreSubmit(entry.semaphore, entry.value, entry.stage)]);
    }
    for i := 0 to |info.signals|
      invariant lowered == Submission2(info.commands, info.waits, info.signals[..i])
    {
      var entry := info.signals[i];
      lowered := lowered.(signals := lowered.signals + [SemaphoreSubmit(entry.semaphore, entry.value, entry.stage)]);
    }
  }

  function MakeSubmitInfo(lowered: LegacySubmission, info: QueueSubmit): View {
    View(if lowered.timelineAvailable then Some((lowered.waitValues, lowered.signalValues)) else None,
         lowered.waitSemaphores, lowered.waitStages, info.commands, lowered.signalSemaphores)
  }

  // ----------------------------------------------- what the queue is asked

  /** The waits a queue is asked for; a semaphore without a value is treated as binary. */
  function WaitsOf(sent: Sent): seq<SemaphoreSubmit> {
    match sent
    case Sent2(s, _) => s.waits
    case SentLegacy(v, _) =>
      seq(|v.waitSemaphores|, i requires 0 <= i < |v.waitSemaphores| =>
        SemaphoreSubmit(v.waitSemaphores[i], if v.timeline.Some? && i < |v.timeline.value.0| then v.timeline.value.0[i] else 0,
                        if i < |v.waitStages| then v.waitStages[i] else NONE))
  }

  /** The signals it is asked for, each after all commands if the submission is a legacy one. */
  function SignalsOf(sent: Sent): seq<SemaphoreSubmit> {
    match sent
    case Sent2(s, _) => s.signals
    case SentLegacy(v, _) =>
      seq(|v.signalSemaphores|, i requires 0 <= i < |v.signalSemaphores| =>
        SemaphoreSubmit(v.signalSemaphores[i], if v.timeline.Some? && i < |v.timeline.value.1| then v.timeline.value.1[i] else 0, {ALL_COMMANDS}))
  }

  function CommandsOf(sent: Sent): seq<nat> {
    match sent
    case Sent2(s, _) => s.commands
    case SentLegacy(v, _) => v.commands
  }

  predicate Wellformed(info: QueueSubmit, queue: nat) {
    && info.commands != [] && queue != NULL
    && (forall i | 0 <= i < |info.waits| :: info.waits[i].semaphore != NULL)
    && (forall i | 0 <= i < |info.signals| :: info.signals[i].semaphore != NULL)
  }

  /** Some entry is for no semaphore. */
  method AnyNull(entries: seq<SemaphoreSubmit>) returns (found: bool)
    ensures found <==> exists i :: 0 <= i < |entries| && entries[i].semaphore == NULL
  {
    for i := 0 to |entries|
      invariant forall k | 0 <= k < i :: entries[k].semaphore != NULL
    {
      if entries[i].semaphore == NULL { return true; }
    }
    found := false;
  }

  /** submit: what is dispatched, and whether the dispatch was accepted. */
  method Submit(info: QueueSubmit, queue: nat, backend: Backend, timelineAvailable: bool, accepted: bool) returns (ok: bool, sent: Option<Sent>)
    ensures sent.Some? <==> Wellformed(info, queue) && (backend == Legacy ==> SubmitLowerable(info))
    ensures sent.Some? ==>
              info.commands != [] && queue != 0 && forall entry | entry in info.waits || entry in info.signals :: entry.semaphore != 0
    ensures sent.None? && (backend != Legacy || SubmitLowerable(info)) ==>
              info.commands == [] || queue == 0 || exists entry :: (entry in info.waits || entry in info.signals) && entry.semaphore == 0
    ensures ok <==> sent.Some? && accepted
    ensures sent.Some? ==>
              && CommandsOf(sent.value) == info.commands
              && Agree(WaitsOf(sent.value), info.waits, backend == Legacy, timelineAvailable)
              && Agree(SignalsOf(sent.value), info.signals, backend == Legacy, timelineAvailable)
    ensures sent.Some? ==> (if backend == Legacy then sent.value.SentLegacy? && sent.value.legacyFence == info.fence
                            else sent.value == Sent2(Submission2(info.commands, info.waits, info.signals), info.fence))
    ensures sent.Some? && backend == Legacy ==>
              var view := sent.value.view;
              && view.commands == info.commands && |view.waitSemaphores| == |view.waitStages| == |info.waits| && |view.signalSemaphores| == |info.signals|
              && (view.timeline.Some? <==> timelineAvailable)
              && (view.timeline.Some? ==> |view.timeline.value.0| == |info.waits| && |view.timeline.value.1| == |info.signals|)
              && (forall i | 0 <= i < |info.waits| ::
                    && view.waitSemaphores[i] == info.waits[i].semaphore && view.waitStages[i] == StageImage(info.waits[i].stage)
                    && (timelineAvailable ==> view.timeline.value.0[i] == info.waits[i].value))
              && (forall i | 0 <= i < |info.signals| ::
                    view.signalSemaphores[i] == info.signals[i].semaphore && (timelineAvailable ==> view.timeline.value.1[i] == info.signals[i].value))
  {
    hide StageImage, WaitLowerable;
    if info.commands == [] { return false, None; }
    if queue == NULL { return false, None; }
    var nullWait := AnyNull(info.waits);
    if nullWait { return false, None; }
    var nullSignal := AnyNull(info.signals);
    if nullSignal { return false, None; }
    if backend != Legacy {
      var submission := LowerSynchronization2Submit(info);
      return accepted, Some(Sent2(submission, info.fence));
    }
    var lowered := LowerLegacySubmit(info, timelineAvailable);
    if lowered.Err? { return false, None; }
    SignalsKeepStage(info);
    sent := Some(SentLegacy(MakeSubmitInfo(lowered.value, info), info.fence));
    ok := accepted;
  }

  lemma SignalsKeepStage(info: QueueSubmit)
    requires SubmitLowerable(info)
    ensures forall i | 0 <= i < |info.signals| :: StageImage(info.signals[i].stage) == info.signals[i].stage
  {
    assert StageImage({ALL_COMMANDS}) == {StageName(ALL_COMMANDS)};
  }

  /** The same semaphores in the same order; on the legacy backend in lowered stages, and with values where they can be carried. */
  predicate Agree(asked: seq<SemaphoreSubmit>, wanted: seq<SemaphoreSubmit>, legacy: bool, timelineAvailable: bool) {
    |asked| == |wanted| && forall i | 0 <= i < |wanted| ::
      asked[i] == SemaphoreSubmit(wanted[i].semaphore, if legacy && !timelineAvailable then 0 else wanted[i].value,
                                  if legacy then StageImage(wanted[i].stage) else wanted[i].stage)
  }

  /** Legacy or not, no wait is missing, out of order or in fewer stages. */
  lemma WaitsNeverWeaken(asked: seq<SemaphoreSubmit>, wanted: seq<SemaphoreSubmit>, legacy: bool, timelineAvailable: bool, i: nat, stage: nat)
    requires Agree(asked, wanted, legacy, timelineAvailable) && i < |wanted| && StageCovered(wanted[i].stage, stage)
    requires legacy ==> StagesRepresentable(wanted[i].stage)
    ensures asked[i].semaphore == wanted[i].semaphore && StageCovered(asked[i].stage, stage)
  {
    if legacy { StagesNeverWeaken(wanted[i].stage, stage); }
  }

  /** The two backends ask for the same values exactly when the legacy one can carry them or there are none to carry. */
  lemma ValuesAgreeWhenCarried(legacy: seq<SemaphoreSubmit>, modern: seq<SemaphoreSubmit>, wanted: seq<SemaphoreSubmit>, timelineAvailable: bool)
    requires Agree(legacy, wanted, true, timelineAvailable) && Agree(modern, wanted, false, timelineAvailable)
    ensures (forall i | 0 <= i < |wanted| :: legacy[i].value == modern[i].value)
            <==> timelineAvailable || forall i | 0 <= i < |wanted| :: wanted[i].value == 0
  {
    forall i | 0 <= i < |wanted|
      ensures modern[i].value == wanted[i].value && legacy[i].value == if timelineAvailable then wanted[i].value else 0
    {
      assert modern[i] == SemaphoreSubmit(wanted[i].semaphore, wanted[i].value, wanted[i].stage);
    }
  }

  /** The input that fails: a wait for a timeline value, on a legacy device without timeline semaphores, that is dispatched as a wait for none. */
  method WaitValueIsDropped(command: nat, queue: nat, semaphore: nat, value: nat) returns (info: QueueSubmit, sent: Sent)
    requires queue != NULL && semaphore != NULL && value != 0
    ensures Wellformed(info, queue) && SubmitLowerable(info) && info.waits == [SemaphoreSubmit(semaphore, value, {ALL_COMMANDS})]
    ensures WaitsOf(sent) == [SemaphoreSubmit(semaphore, 0, {ALL_COMMANDS})]
  {
    info := QueueSubmit([command], [SemaphoreSubmit(semaphore, value, {ALL_COMMANDS})], [], NULL);
    assert StageImage({ALL_COMMANDS}) == {StageName(ALL_COMMANDS)};
    var ok, submitted := Submit(info, queue, Legacy, false, true);
    sent := submitted.value;
    assert WaitsOf(sent)[0] == SemaphoreSubmit(semaphore, 0, {ALL_COMMANDS});
  }
}
