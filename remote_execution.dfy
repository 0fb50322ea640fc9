/**
 * The decisions the remote execution strategy takes for one build rule, in the order its
 * futures run them: compute the action, refuse inputs over the size limit, upload, skip the
 * execution if the rule was cancelled meanwhile, fail on a non-zero exit code before touching any
 * output, delete the stale outputs, then materialize the new ones without the metadata file, and
 * record every output but the metadata one as an artifact.
 *
 * The futures are modelled as the sequence they resolve in. The values the remote side produces
 * (the computed action, the execution result) are parameters, and so are the cancellations that
 * arrive from outside, at the points where they can make a difference. What the strategy asks
 * of the content-addressed storage, the execution service and the file system is recorded as a
 * list of effects.
 */
module RemoteExecution {
  import opened Wrappers
  import opened RuleContexts

  type Digest = string
  type Path = string

  /** `SUCCESS_EXIT_CODE` of a step. */
  const SuccessExitCode: int := 0

  /** The callback the execution stage registers: it cancels the running execution. */
  const ExecutionCancelCallback: CallbackId := 0

  /** What preparing an action yields: its digest, input size, the data to upload and its outputs. */
  datatype ActionInfo = ActionInfo(
    actionDigest: Digest,
    totalInputSize: int,
    requiredData: seq<Digest>,
    outputs: seq<Path>)

  datatype OutputFile = OutputFile(path: string, digest: Digest)

  datatype ExecutionResult = ExecutionResult(
    exitCode: int,
    outputFiles: seq<OutputFile>,
    outputDirectories: seq<Path>)

  /** A request the strategy makes of the services and the file system. */
  datatype Effect =
    | AddMissing(data: seq<Digest>)
    | Execute(actionDigest: Digest)
    | DeleteOutput(path: Path)
    | FetchMetadata(digest: Digest)
    | MaterializeOutputs(directories: seq<Path>, files: seq<OutputFile>)
    | RecordArtifact(path: Path)

  /** The exceptions that fail a build. */
  datatype Failure =
    | InputSizeExceeded(totalInputSize: int, maxInputSizeBytes: int)
    | StepFailed(exitCode: int)
    | IllegalStateFailure(cause: IllegalState)

  datatype BuildResult = CancelledResult(reason: Reason) | BuiltRemotely

  /** The rule context and the effects issued so far. */
  datatype Progress = Progress(ctx: Ctx, effects: seq<Effect>)

  /** A stage either hands a value to the next one or fails; both keep what was done so far. */
  datatype Stage<+T> = Next(progress: Progress, value: T) | Failed(progress: Progress, failure: Failure)

  /** How the strategy and the rule are configured. */
  datatype BuildConfig = BuildConfig(
    respectsInputSizeLimit: bool,
    maxInputSizeBytes: Option<int>,
    metadataPath: string)

  /**
   * The cancellations that reach the rule context, grouped by the point they arrive at: before
   * the execution job starts, while the execution runs and before the service reports that it
   * started (if it ever does), and after that report.
   */
  datatype Schedule = Schedule(
    beforeExecution: seq<Reason>,
    whileExecuting: seq<Reason>,
    executionStarted: bool,
    afterStarted: seq<Reason>)

  // ---------------------------------------------------------------------------------------------
  // Substrings

  /** `String.contains`: `sub` occurs in `s` at some position. */
  function Contains(s: string, sub: string): bool
    decreases |s|
  {
    if |sub| <= |s| && s[..|sub|] == sub then true
    else if s == [] then false
    else Contains(s[1..], sub)
  }

  /** `sub` occurs in `s` starting at index `i`. */
  predicate OccursAt(s: string, sub: string, i: int) {
    0 <= i <= |s| - |sub| && s[i..i + |sub|] == sub
  }

  /** Contains finds `sub` exactly when it occurs in `s` at some index. */
  lemma {:induction false} ContainsIff(s: string, sub: string)
    ensures Contains(s, sub) <==> exists i :: OccursAt(s, sub, i)
    decreases |s|
  {
    if |sub| <= |s| && s[..|sub|] == sub {
      assert OccursAt(s, sub, 0);
    } else if s == [] {
    } else {
      ContainsIff(s[1..], sub);
      if exists i :: OccursAt(s, sub, i) {
        var i :| OccursAt(s, sub, i);
        if i != 0 {
          assert s[1..][i - 1..i - 1 + |sub|] == s[i..i + |sub|];
          assert OccursAt(s[1..], sub, i - 1);
        }
      }
      if exists i :: OccursAt(s[1..], sub, i) {
        var i :| OccursAt(s[1..], sub, i);
        assert s[i + 1..i + 1 + |sub|] == s[1..][i..i + |sub|];
        assert OccursAt(s, sub, i + 1);
      }
    }
  }

  // ---------------------------------------------------------------------------------------------
  // stripMetadata and the artifact filter

  predicate IsMetadata(file: OutputFile, metadataPath: string) {
    Contains(file.path, metadataPath)
  }

  /** The output files other than the metadata file, in their order. */
  function KeptFiles(outputFiles: seq<OutputFile>, metadataPath: string): seq<OutputFile> {
    if outputFiles == [] then []
    else
      var last := outputFiles[|outputFiles| - 1];
      KeptFiles(outputFiles[..|outputFiles| - 1], metadataPath) + (if IsMetadata(last, metadataPath) then [] else [last])
  }

  /** The digest of the last metadata file among the outputs, if there is one. */
  function LastMetadata(outputFiles: seq<OutputFile>, metadataPath: string): Option<Digest> {
    if outputFiles == [] then None
    else
      var last := outputFiles[|outputFiles| - 1];
      if IsMetadata(last, metadataPath) then Some(last.digest)
      else LastMetadata(outputFiles[..|outputFiles| - 1], metadataPath)
  }

  /** Splits the metadata file from the files to materialize, in one pass over the outputs. */
  method StripMetadata(outputFiles: seq<OutputFile>, metadataPath: string)
    returns (files: seq<OutputFile>, metadataDigest: Option<Digest>)
    ensures files == KeptFiles(outputFiles, metadataPath)
    ensures metadataDigest == LastMetadata(outputFiles, metadataPath)
  {
    files := [];
    metadataDigest := None;
    for i := 0 to |outputFiles|
      invariant files == KeptFiles(outputFiles[..i], metadataPath)
      invariant metadataDigest == LastMetadata(outputFiles[..i], metadataPath)
    {
      var file := outputFiles[i];
      assert outputFiles[..i + 1][..i] == outputFiles[..i];
      if Contains(file.path, metadataPath) {
        metadataDigest := Some(file.digest);
      } else {
        files := files + [file];
      }
    }
    assert outputFiles[..|outputFiles|] == outputFiles;
  }

  /** The files kept are exactly the outputs that are not metadata. */
  lemma {:induction false} KeptFilesMembers(outputFiles: seq<OutputFile>, metadataPath: string)
    ensures forall f :: f in KeptFiles(outputFiles, metadataPath) <==> f in outputFiles && !IsMetadata(f, metadataPath)
  {
    if outputFiles != [] {
      var p := outputFiles[..|outputFiles| - 1];
      KeptFilesMembers(p, metadataPath);
      assert outputFiles == p + [outputFiles[|outputFiles| - 1]];
    }
  }

  /** Filtering keeps the order: the files kept from a concatenation are those kept from each part. */
  lemma {:induction false} KeptFilesAppend(a: seq<OutputFile>, b: seq<OutputFile>, metadataPath: string)
    ensures KeptFiles(a + b, metadataPath) == KeptFiles(a, metadataPath) + KeptFiles(b, metadataPath)
    decreases |b|
  {
    if b == [] {
      assert a + b == a;
    } else {
      var b' := b[..|b| - 1];
      assert (a + b)[..|a + b| - 1] == a + b';
      KeptFilesAppend(a, b', metadataPath);
    }
  }

  /**
   * The metadata digest is the digest of the last metadata file: present exactly when some
   * output is metadata, and then taken from a metadata file with no metadata file after it.
   */
  lemma {:induction false} LastMetadataIsLast(outputFiles: seq<OutputFile>, metadataPath: string)
    ensures LastMetadata(outputFiles, metadataPath).None? <==>
      forall i | 0 <= i < |outputFiles| :: !IsMetadata(outputFiles[i], metadataPath)
    ensures LastMetadata(outputFiles, metadataPath).Some? ==>
      exists i | 0 <= i < |outputFiles| ::
        IsMetadata(outputFiles[i], metadataPath)
        && LastMetadata(outputFiles, metadataPath).value == outputFiles[i].digest
        && forall j | i < j < |outputFiles| :: !IsMetadata(outputFiles[j], metadataPath)
  {
    if outputFiles != [] {
      var n := |outputFiles| - 1;
      var p := outputFiles[..n];
      LastMetadataIsLast(p, metadataPath);
      if !IsMetadata(outputFiles[n], metadataPath) && LastMetadata(p, metadataPath).Some? {
        var i :| 0 <= i < |p| && IsMetadata(p[i], metadataPath)
          && LastMetadata(p, metadataPath).value == p[i].digest
          && forall j | i < j < |p| :: !IsMetadata(p[j], metadataPath);
        assert outputFiles[i] == p[i];
        forall j | i < j < |outputFiles| ensures !IsMetadata(outputFiles[j], metadataPath) {
          if j < n {
            assert outputFiles[j] == p[j];
          }
        }
      }
      if LastMetadata(p, metadataPath).None? {
        forall i | 0 <= i < n ensures !IsMetadata(outputFiles[i], metadataPath) {
          assert outputFiles[i] == p[i];
        }
      } else {
        var i :| 0 <= i < |p| && IsMetadata(p[i], metadataPath);
        assert outputFiles[i] == p[i];
      }
    }
  }

  /** The outputs recorded as artifacts once the build succeeds: all but the metadata outputs. */
  function RecordedOutputs(outputs: seq<Path>, metadataPath: string): seq<Path> {
    if outputs == [] then []
    else (if Contains(outputs[0], metadataPath) then [] else [outputs[0]]) + RecordedOutputs(outputs[1..], metadataPath)
  }

  lemma {:induction false} RecordedOutputsMembers(outputs: seq<Path>, metadataPath: string)
    ensures forall o :: o in RecordedOutputs(outputs, metadataPath) <==> o in outputs && !Contains(o, metadataPath)
  {
    if outputs != [] {
      RecordedOutputsMembers(outputs[1..], metadataPath);
      assert outputs == [outputs[0]] + outputs[1..];
    }
  }

  function RecordArtifacts(paths: seq<Path>): (r: seq<Effect>)
    ensures |r| == |paths| && forall i | 0 <= i < |paths| :: r[i] == RecordArtifact(paths[i])
  {
    if paths == [] then [] else [RecordArtifact(paths[0])] + RecordArtifacts(paths[1..])
  }

  function DeleteOutputs(paths: seq<Path>): (r: seq<Effect>)
    ensures |r| == |paths| && forall i | 0 <= i < |paths| :: r[i] == DeleteOutput(paths[i])
  {
    if paths == [] then [] else [DeleteOutput(paths[0])] + DeleteOutputs(paths[1..])
  }

  // ---------------------------------------------------------------------------------------------
  // The stages

  /** The cancellations `reasons`, in order, on the context. */
  function Cancels(c: Ctx, reasons: seq<Reason>): Ctx
    decreases |reasons|
  {
    if reasons == [] then c else Cancels(c.Cancel(reasons[0]), reasons[1..])
  }

  /** Only the first of several cancellations has an effect, and only on an unset guard. */
  lemma {:induction false} CancelsFrom(c: Ctx, reasons: seq<Reason>)
    requires c.Consistent()
    ensures Cancels(c, reasons) == if c.guard == Unset && reasons != [] then c.Cancel(reasons[0]) else c
    decreases |reasons|
  {
    if reasons != [] {
      var d := c.Cancel(reasons[0]);
      StepKeepsCallbacks(c, RuleContexts.Cancel(reasons[0]));
      assert d.Cancel(reasons[0]) == d by {
        if d.IsCancelled() {
          assert d.fired + Fire([], d.guard.reason) == d.fired;
        }
      }
      forall r ensures d.Cancel(r) == d {
        if d.IsCancelled() {
          assert d.fired + Fire([], d.guard.reason) == d.fired;
        }
      }
      CancelsFrom(d, reasons[1..]);
      if c.guard != Unset {
        assert d == c by {
          if c.IsCancelled() {
            assert c.fired + Fire([], c.guard.reason) == c.fired;
          }
        }
      }
    }
  }

  function Enter(p: Progress, state: State): Stage<()> {
    if p.ctx.CanEnter(state) then Next(p.(ctx := p.ctx.EnterState(state)), ())
    else Failed(p, IllegalStateFailure(CannotEnterState(state, p.ctx.actionState)))
  }

  function Close(p: Progress): Progress {
    p.(ctx := p.ctx.CloseScope())
  }

  function Emit(p: Progress, effects: seq<Effect>): Progress {
    p.(effects := p.effects + effects)
  }

  /** getRemoteExecutionActionInfo: computes the action inside the COMPUTING_ACTION stage. */
  function GetRemoteExecutionActionInfo(p: Progress, computed: ActionInfo): Stage<ActionInfo> {
    match Enter(p, ComputingAction)
    case Failed(q, f) => Failed(q, f)
    case Next(q, _) => Next(Close(q), computed)
  }

  /** The size gate of uploadInputs. */
  predicate ExceedsInputLimit(respectsLimit: bool, maxInputSizeBytes: Option<int>, totalInputSize: int) {
    respectsLimit && maxInputSizeBytes.Some? && maxInputSizeBytes.value < totalInputSize
  }

  /**
   * uploadInputs: refuses an action over the size limit; otherwise uploads the missing inputs
   * inside the UPLOADING_INPUTS stage and passes on the action without its required data.
   */
  function UploadInputs(p: Progress, respectsLimit: bool, maxInputSizeBytes: Option<int>, info: ActionInfo)
    : Stage<ActionInfo>
  {
    if ExceedsInputLimit(respectsLimit, maxInputSizeBytes, info.totalInputSize) then
      Failed(p, InputSizeExceeded(info.totalInputSize, maxInputSizeBytes.value))
    else
      match Enter(p, UploadingInputs)
      case Failed(q, f) => Failed(q, f)
      case Next(q, _) => Next(Close(Emit(q, [AddMissing(info.requiredData)])), info.(requiredData := []))
  }

  /** The effects of materializing: the metadata fetch, if any, then the materialization. */
  function MaterializeEffects(result: ExecutionResult, metadataPath: string): seq<Effect> {
    var md := LastMetadata(result.outputFiles, metadataPath);
    (if md.Some? then [FetchMetadata(md.value)] else [])
    + [MaterializeOutputs(result.outputDirectories, KeptFiles(result.outputFiles, metadataPath))]
  }

  /**
   * handleExecutionResult: a non-zero exit code fails the step at once; otherwise the declared
   * outputs are deleted inside DELETING_STALE_OUTPUTS, and then the result is materialized inside
   * MATERIALIZING_OUTPUTS.
   */
  function HandleExecutionResult(p: Progress, result: ExecutionResult, actionOutputs: seq<Path>, metadataPath: string)
    : Stage<Option<ExecutionResult>>
  {
    if result.exitCode != SuccessExitCode then Failed(p, StepFailed(result.exitCode))
    else
      match Enter(p, DeletingStaleOutputs)
      case Failed(q, f) => Failed(q, f)
      case Next(q, _) =>
        match Enter(Close(Emit(q, DeleteOutputs(actionOutputs))), MaterializingOutputs)
        case Failed(q1, f) => Failed(q1, f)
        case Next(q1, _) => Next(Close(Emit(q1, MaterializeEffects(result, metadataPath))), Some(result))
  }

  /**
   * executeNowThatInputsAreReady: a context cancelled when the execution job starts issues no
   * execution and yields no result. Otherwise the action is executed inside the EXECUTING stage
   * with a callback that cancels it; the service's start report and the arrival of the result
   * each try to pass the point of no return, and a context cancelled by then yields no result.
   */
  function ExecuteNowThatInputsAreReady(p: Progress, actionDigest: Digest, actionOutputs: seq<Path>,
                                        result: ExecutionResult, schedule: Schedule, metadataPath: string)
    : (r: Stage<Option<ExecutionResult>>)
    ensures r.Next? && r.value.None? ==> r.progress.ctx.IsCancelled()
  {
    var c := Cancels(p.ctx, schedule.beforeExecution);
    if c.IsCancelled() then Next(p.(ctx := c), None)
    else
      match Enter(p.(ctx := c), Executing)
      case Failed(q, f) => Failed(q, f)
      case Next(q, _) =>
        var c1 := Cancels(q.ctx.OnCancellation(ExecutionCancelCallback), schedule.whileExecuting);
        var c2 := if schedule.executionStarted then c1.TryStart() else c1;
        var c3 := Cancels(c2, schedule.afterStarted).CloseScope().TryStart();
        var q1 := Emit(q, [Execute(actionDigest)]).(ctx := c3);
        if c3.IsCancelled() then Next(q1, None)
        else HandleExecutionResult(q1, result, actionOutputs, metadataPath)
  }

  /** handleActionInfo: uploads the action inside UPLOADING_ACTION, then executes it. */
  function HandleActionInfo(p: Progress, info: ActionInfo, result: ExecutionResult, schedule: Schedule, metadataPath: string)
    : (r: Stage<Option<ExecutionResult>>)
    ensures r.Next? && r.value.None? ==> r.progress.ctx.IsCancelled()
  {
    match Enter(p, UploadingAction)
    case Failed(q, f) => Failed(q, f)
    case Next(q, _) =>
      ExecuteNowThatInputsAreReady(Close(Emit(q, [AddMissing(info.requiredData)])), info.actionDigest, info.outputs,
                                   result, schedule, metadataPath)
  }

  /**
   * build: the stages in order on a fresh context. An execution that yields no result becomes a
   * cancelled build result with the context's reason; otherwise the outputs other than the
   * metadata are recorded and the rule counts as built.
   */
  function Build(config: BuildConfig, computed: ActionInfo, result: ExecutionResult, schedule: Schedule): Stage<BuildResult> {
    match GetRemoteExecutionActionInfo(Progress(Initial, []), computed)
    case Failed(q, f) => Failed(q, f)
    case Next(q, info0) =>
      match UploadInputs(q, config.respectsInputSizeLimit, config.maxInputSizeBytes, info0)
      case Failed(q1, f) => Failed(q1, f)
      case Next(q1, info) =>
        match HandleActionInfo(q1, info, result, schedule, config.metadataPath)
        case Failed(q2, f) => Failed(q2, f)
        case Next(q2, None) => Next(q2, CancelledResult(q2.ctx.guard.reason))
        case Next(q2, Some(_)) =>
          Next(Emit(q2, RecordArtifacts(RecordedOutputs(info.outputs, config.metadataPath))), BuiltRemotely)
  }

  /** cancelIfNotComplete: cancels, then reports whether the context is cancelled. */
  method CancelIfNotComplete(ruleContext: RuleContext, reason: Reason) returns (cancelled: bool)
    modifies ruleContext
    ensures cancelled <==> !old(ruleContext.guard).PastPointOfNoReturn?
    ensures ruleContext.Snapshot() == old(ruleContext.Snapshot()).Cancel(reason)
  {
    ruleContext.Cancel(reason);
    cancelled := ruleContext.IsCancelled();
  }

  // ---------------------------------------------------------------------------------------------
  // What the stages guarantee

  /** cancelIfNotComplete reports false exactly when the execution passed the point of no return. */
  lemma CancelIfNotCompleteReports(c: Ctx, reason: Reason)
    ensures c.Cancel(reason).IsCancelled() <==> !c.guard.PastPointOfNoReturn?
    ensures c.guard.Cancelled? ==> c.Cancel(reason).guard == c.guard
  {
  }

  /**
   * The size gate: an action is refused, before anything is uploaded, exactly when the rule
   * respects the limit, a maximum is set and the inputs exceed it (a size equal to the maximum
   * passes). A passing action has its inputs uploaded and goes on without its required data.
   */
  lemma UploadGate(p: Progress, respectsLimit: bool, maxInputSizeBytes: Option<int>, info: ActionInfo)
    requires p.ctx.CanEnter(UploadingInputs)
    ensures var r := UploadInputs(p, respectsLimit, maxInputSizeBytes, info);
      (r.Failed? <==> respectsLimit && maxInputSizeBytes.Some? && maxInputSizeBytes.value < info.totalInputSize)
      && (r.Failed? ==> r.progress == p && r.failure == InputSizeExceeded(info.totalInputSize, maxInputSizeBytes.value))
      && (r.Next? ==>
            r.value.requiredData == [] && r.value.actionDigest == info.actionDigest && r.value.outputs == info.outputs
            && r.progress.effects == p.effects + [AddMissing(info.requiredData)]
            && r.progress.ctx.prevState == UploadingInputs)
  {
  }

  /**
   * The exit code is checked first: a failed execution touches no output and leaves the context
   * as it was. A successful one deletes every declared output, in order, before it starts
   * materializing, and closes the context in MATERIALIZING_OUTPUTS.
   */
  lemma ExitCodeGuardsOutputs(p: Progress, result: ExecutionResult, actionOutputs: seq<Path>, metadataPath: string)
    requires p.ctx.StagesOrdered() && p.ctx.CanEnter(DeletingStaleOutputs)
    ensures var r := HandleExecutionResult(p, result, actionOutputs, metadataPath);
      (result.exitCode != 0 ==> r == Failed(p, StepFailed(result.exitCode)))
      && (result.exitCode == 0 ==>
            r.Next? && r.value == Some(result)
            && r.progress.effects == p.effects + DeleteOutputs(actionOutputs) + MaterializeEffects(result, metadataPath)
            && r.progress.ctx.prevState == MaterializingOutputs && r.progress.ctx.actionState == Waiting
            && r.progress.ctx.guard == p.ctx.guard)
  {
  }

  /** The declared outputs are deleted first, in order; after them comes no deletion, and the materialization is the last effect. */
  lemma DeletesBeforeMaterialize(p: Progress, result: ExecutionResult, actionOutputs: seq<Path>, metadataPath: string)
    requires p.ctx.StagesOrdered() && p.ctx.CanEnter(DeletingStaleOutputs) && result.exitCode == 0
    ensures var e := HandleExecutionResult(p, result, actionOutputs, metadataPath).progress.effects;
      |e| > |p.effects| + |actionOutputs|
      && (forall i | |p.effects| <= i < |p.effects| + |actionOutputs| :: e[i] == DeleteOutput(actionOutputs[i - |p.effects|]))
      && e[|e| - 1] == MaterializeOutputs(result.outputDirectories, KeptFiles(result.outputFiles, metadataPath))
      && forall i | |p.effects| + |actionOutputs| <= i < |e| :: !e[i].DeleteOutput?
  {
    ExitCodeGuardsOutputs(p, result, actionOutputs, metadataPath);
  }

  /** A context cancelled before the execution job starts issues no execution and yields nothing. */
  lemma CancelledBeforeExecution(p: Progress, actionDigest: Digest, actionOutputs: seq<Path>,
                                 result: ExecutionResult, schedule: Schedule, metadataPath: string)
    requires Cancels(p.ctx, schedule.beforeExecution).IsCancelled()
    ensures ExecuteNowThatInputsAreReady(p, actionDigest, actionOutputs, result, schedule, metadataPath)
      == Next(p.(ctx := Cancels(p.ctx, schedule.beforeExecution)), None)
  {
  }

  /** The context once the action has been computed and uploaded, with no cancellation yet. */
  const Uploaded: Ctx := Ctx(Unset, [], [], Waiting, UploadingAction)

  /** The first two stages on a fresh context, for an action within the size limit. */
  lemma UploadsFromScratch(config: BuildConfig, computed: ActionInfo)
    requires !ExceedsInputLimit(config.respectsInputSizeLimit, config.maxInputSizeBytes, computed.totalInputSize)
    ensures var a := GetRemoteExecutionActionInfo(Progress(Initial, []), computed);
      a == Next(Progress(Initial.(prevState := ComputingAction), []), computed)
      && UploadInputs(a.progress, config.respectsInputSizeLimit, config.maxInputSizeBytes, computed)
         == Next(Progress(Initial.(prevState := UploadingInputs), [AddMissing(computed.requiredData)]),
                 computed.(requiredData := []))
  {
  }

  /** The effects of uploading the inputs and the action. */
  function UploadEffects(computed: ActionInfo): seq<Effect> {
    [AddMissing(computed.requiredData), AddMissing([])]
  }

  /** An action over the size limit fails the build before anything is uploaded. */
  lemma BuildRejectsLargeInputs(config: BuildConfig, computed: ActionInfo, result: ExecutionResult, schedule: Schedule)
    requires ExceedsInputLimit(config.respectsInputSizeLimit, config.maxInputSizeBytes, computed.totalInputSize)
    ensures var r := Build(config, computed, result, schedule);
      r.Failed? && r.failure == InputSizeExceeded(computed.totalInputSize, config.maxInputSizeBytes.value)
      && r.progress.effects == []
  {
  }

  /**
   * A rule cancelled before its execution job starts is built as cancelled, with the first
   * reason: the inputs and the action are uploaded, but nothing is executed, deleted,
   * materialized or recorded.
   */
  lemma BuildCancelledBeforeExecution(config: BuildConfig, computed: ActionInfo, result: ExecutionResult, schedule: Schedule)
    requires !ExceedsInputLimit(config.respectsInputSizeLimit, config.maxInputSizeBytes, computed.totalInputSize)
    requires schedule.beforeExecution != []
    ensures var r := Build(config, computed, result, schedule);
      r == Next(Progress(Uploaded.(guard := Cancelled(schedule.beforeExecution[0])), UploadEffects(computed)),
                CancelledResult(schedule.beforeExecution[0]))
  {
    UploadsFromScratch(config, computed);
    CancelsFrom(Uploaded, schedule.beforeExecution);
    assert Uploaded.Cancel(schedule.beforeExecution[0]) == Uploaded.(guard := Cancelled(schedule.beforeExecution[0]));
  }

  /** The context after the execution is issued and the cancellations it meets have arrived. */
  function AfterExecution(schedule: Schedule): Ctx {
    var c1 := Cancels(Uploaded.(actionState := Executing, callbackQueue := [ExecutionCancelCallback]), schedule.whileExecuting);
    var c2 := if schedule.executionStarted then c1.TryStart() else c1;
    Cancels(c2, schedule.afterStarted).CloseScope().TryStart()
  }

  /** The first cancellation that arrives before the execution passes the point of no return. */
  function FirstEffectiveCancel(schedule: Schedule): Option<Reason> {
    if schedule.whileExecuting != [] then Some(schedule.whileExecuting[0])
    else if !schedule.executionStarted && schedule.afterStarted != [] then Some(schedule.afterStarted[0])
    else None
  }

  /**
   * During the execution, a cancellation counts only if it comes before the point of no return:
   * the first such cancellation runs the execution's cancel callback exactly once, with its
   * reason; without one, the callback never runs and the guard ends past the point of no return.
   */
  lemma ExecutionCancellation(schedule: Schedule)
    ensures var c := AfterExecution(schedule);
      c.actionState == Waiting && c.prevState == Executing
      && match FirstEffectiveCancel(schedule)
         case Some(reason) =>
           c.guard == Cancelled(reason) && c.fired == [(ExecutionCancelCallback, reason)] && c.callbackQueue == []
         case None =>
           c.guard == PastPointOfNoReturn && c.fired == [] && c.callbackQueue == [ExecutionCancelCallback]
  {
    var c0 := Uploaded.(actionState := Executing, callbackQueue := [ExecutionCancelCallback]);
    CancelsFrom(c0, schedule.whileExecuting);
    var c1 := Cancels(c0, schedule.whileExecuting);
    if schedule.whileExecuting != [] {
      assert c1.fired == [(ExecutionCancelCallback, schedule.whileExecuting[0])];
    }
    var c2 := if schedule.executionStarted then c1.TryStart() else c1;
    assert c2.Consistent();
    CancelsFrom(c2, schedule.afterStarted);
    if schedule.whileExecuting == [] && !schedule.executionStarted && schedule.afterStarted != [] {
      assert Cancels(c2, schedule.afterStarted).fired == [(ExecutionCancelCallback, schedule.afterStarted[0])];
    }
  }

  /**
   * A rule cancelled while it executes, before the point of no return, is built as cancelled with
   * that first reason: the execution was issued and its cancel callback run once, but no output
   * is deleted, materialized or recorded.
   */
  lemma BuildCancelledDuringExecution(config: BuildConfig, computed: ActionInfo, result: ExecutionResult, schedule: Schedule)
    requires !ExceedsInputLimit(config.respectsInputSizeLimit, config.maxInputSizeBytes, computed.totalInputSize)
    requires schedule.beforeExecution == [] && FirstEffectiveCancel(schedule).Some?
    ensures var r := Build(config, computed, result, schedule);
      r == Next(Progress(AfterExecution(schedule), UploadEffects(computed) + [Execute(computed.actionDigest)]),
                CancelledResult(FirstEffectiveCancel(schedule).value))
      && r.progress.ctx.fired == [(ExecutionCancelCallback, FirstEffectiveCancel(schedule).value)]
  {
    UploadsFromScratch(config, computed);
    ExecutionCancellation(schedule);
    var p := Progress(Initial.(prevState := UploadingInputs), [AddMissing(computed.requiredData)]);
    var uploaded := Progress(Uploaded, UploadEffects(computed));
    assert Close(Emit(Enter(p, UploadingAction).progress, [AddMissing([])])) == uploaded;
    assert Cancels(Uploaded, schedule.beforeExecution) == Uploaded;
    var executing := Uploaded.(actionState := Executing);
    assert Enter(uploaded, Executing) == Next(uploaded.(ctx := executing), ());
    assert executing.OnCancellation(ExecutionCancelCallback)
      == Uploaded.(actionState := Executing, callbackQueue := [ExecutionCancelCallback]);
  }

  /**
   * A rule the cancellations do not reach in time runs to the end: a non-zero exit code fails it
   * after the execution, with no output touched; exit code 0 deletes the declared outputs,
   * materializes the result without the metadata file and records every output but the
   * metadata ones. The execution's cancel callback never runs.
   */
  lemma BuildRunsToCompletion(config: BuildConfig, computed: ActionInfo, result: ExecutionResult, schedule: Schedule)
    requires !ExceedsInputLimit(config.respectsInputSizeLimit, config.maxInputSizeBytes, computed.totalInputSize)
    requires schedule.beforeExecution == [] && FirstEffectiveCancel(schedule).None?
    ensures var r := Build(config, computed, result, schedule);
      var executed := UploadEffects(computed) + [Execute(computed.actionDigest)];
      r.progress.ctx.fired == [] && r.progress.ctx.guard == PastPointOfNoReturn
      && (result.exitCode != 0 ==>
            r == Failed(Progress(AfterExecution(schedule), executed), StepFailed(result.exitCode)))
      && (result.exitCode == 0 ==>
            r.Next? && r.value == BuiltRemotely
            && r.progress.effects == executed + DeleteOutputs(computed.outputs)
               + MaterializeEffects(result, config.metadataPath)
               + RecordArtifacts(RecordedOutputs(computed.outputs, config.metadataPath)))
  {
    UploadsFromScratch(config, computed);
    ExecutionReachesResult(computed, result, schedule, config.metadataPath);
    var p := Progress(AfterExecution(schedule), UploadEffects(computed) + [Execute(computed.actionDigest)]);
    ExitCodeGuardsOutputs(p, result, computed.outputs, config.metadataPath);
  }

  /** Without an effective cancellation, the uploaded action is executed and its result handled. */
  lemma ExecutionReachesResult(computed: ActionInfo, result: ExecutionResult, schedule: Schedule, metadataPath: string)
    requires schedule.beforeExecution == [] && FirstEffectiveCancel(schedule).None?
    ensures var p := Progress(Initial.(prevState := UploadingInputs), [AddMissing(computed.requiredData)]);
      var c := AfterExecution(schedule);
      c.StagesOrdered() && c.CanEnter(DeletingStaleOutputs) && c.guard == PastPointOfNoReturn && c.fired == []
      && HandleActionInfo(p, computed.(requiredData := []), result, schedule, metadataPath)
         == HandleExecutionResult(Progress(c, UploadEffects(computed) + [Execute(computed.actionDigest)]),
                                  result, computed.outputs, metadataPath)
  {
    ExecutionCancellation(schedule);
    var p := Progress(Initial.(prevState := UploadingInputs), [AddMissing(computed.requiredData)]);
    var uploaded := Progress(Uploaded, UploadEffects(computed));
    assert Close(Emit(Enter(p, UploadingAction).progress, [AddMissing([])])) == uploaded;
    assert Cancels(Uploaded, schedule.beforeExecution) == Uploaded;
    var executing := Uploaded.(actionState := Executing);
    assert Enter(uploaded, Executing) == Next(uploaded.(ctx := executing), ());
    assert executing.OnCancellation(ExecutionCancelCallback)
      == Uploaded.(actionState := Executing, callbackQueue := [ExecutionCancelCallback]);
  }

  /**
   * Every stage is entered in order, so a build never fails on the stage check: it fails only on
   * the size limit or on the exit code.
   */
  lemma BuildNeverMisordersStages(config: BuildConfig, computed: ActionInfo, result: ExecutionResult, schedule: Schedule)
    ensures var r := Build(config, computed, result, schedule);
      r.Failed? ==> r.failure.InputSizeExceeded? || r.failure.StepFailed?
  {
    if ExceedsInputLimit(config.respectsInputSizeLimit, config.maxInputSizeBytes, computed.totalInputSize) {
      BuildRejectsLargeInputs(config, computed, result, schedule);
    } else if schedule.beforeExecution != [] {
      BuildCancelledBeforeExecution(config, computed, result, schedule);
    } else if FirstEffectiveCancel(schedule).Some? {
      BuildCancelledDuringExecution(config, computed, result, schedule);
    } else {
      BuildRunsToCompletion(config, computed, result, schedule);
    }
  }
}
