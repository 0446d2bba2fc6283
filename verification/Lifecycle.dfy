/** The deployment lifecycle (internal/deploy/deploy.go, deploymentControl.go, destroy.go,
    configure.go; internal/config/exasol_launcher_state.go): the recorded workflow state, the
    commands that change it, and the runtime that is really up or down beside it. */
module Lifecycle {
  import opened Text

  datatype Operation = Deploy | Destroy | Start | Stop

  datatype Workflow =
    | Initialized
    | InProgress(operation: Operation)
    | Interrupted(operation: Operation)
    | DeploymentFailed
    | Running
    | Stopped

  // ----- the recorded union -----

  /** The state file's union; exactly one field should be set. */
  datatype WorkflowRecord = WorkflowRecord(
    initialized: bool,
    operationInProgress: Option<Operation>,
    interrupted: Option<Operation>,
    deploymentFailed: bool,
    running: bool,
    stopped: bool)

  const NOTHING_SET := WorkflowRecord(false, None, None, false, false, false)

  function Fields(r: WorkflowRecord): nat {
    (if r.initialized then 1 else 0) + (if r.operationInProgress.Some? then 1 else 0)
    + (if r.interrupted.Some? then 1 else 0) + (if r.deploymentFailed then 1 else 0)
    + (if r.running then 1 else 0) + (if r.stopped then 1 else 0)
  }

  function SetWorkflowState(w: Workflow): (r: WorkflowRecord)
    ensures Fields(r) == 1
  {
    match w
    case Initialized => NOTHING_SET.(initialized := true)
    case InProgress(op) => NOTHING_SET.(operationInProgress := Some(op))
    case Interrupted(op) => NOTHING_SET.(interrupted := Some(op))
    case DeploymentFailed => NOTHING_SET.(deploymentFailed := true)
    case Running => NOTHING_SET.(running := true)
    case Stopped => NOTHING_SET.(stopped := true)
  }

  function GetWorkflowState(r: WorkflowRecord): Option<Workflow> {
    if r.initialized then Some(Initialized)
    else if r.operationInProgress.Some? then Some(InProgress(r.operationInProgress.value))
    else if r.running then Some(Running)
    else if r.stopped then Some(Stopped)
    else if r.interrupted.Some? then Some(Interrupted(r.interrupted.value))
    else if r.deploymentFailed then Some(DeploymentFailed)
    else None
  }

  function Current(r: WorkflowRecord): Workflow
    requires Fields(r) == 1
  {
    GetWorkflowState(r).value
  }

  /** Reading undoes writing, and a record with one field set is one that was written. */
  lemma RecordRoundTrip(w: Workflow, r: WorkflowRecord)
    ensures GetWorkflowState(SetWorkflowState(w)) == Some(w)
    ensures Fields(r) == 1 <==> exists v :: r == SetWorkflowState(v)
  {
    if Fields(r) == 1 {
      var v := GetWorkflowState(r).value;
      assert r == SetWorkflowState(v);
    }
  }

  // ----- which commands a state permits -----

  predicate PermitsDeploy(w: Workflow) {
    w == Initialized || w == DeploymentFailed || w == Running || w == InProgress(Deploy) || w == Interrupted(Deploy)
  }

  predicate PermitsStart(w: Workflow) {
    w == Stopped || w == InProgress(Start) || w == Interrupted(Start) || w == Interrupted(Stop)
  }

  predicate PermitsStop(w: Workflow) {
    w == Running || w == InProgress(Stop) || w == Interrupted(Start) || w == Interrupted(Stop) || w == Interrupted(Destroy)
  }

  predicate PermitsConfigure(w: Workflow, local: bool) {
    w == Initialized || (local && w == Stopped)
  }

  // ----- what a command does, given how the world answers -----

  /** A liveness probe: the runtime is up, it is down, the container host cannot be reached, or
      there is no answer for another reason. */
  datatype Probe = Up | Down | Unreachable | NoAnswer

  /** How the calls that a command makes turn out. */
  datatype Answers = Answers(
    entryProbe: Probe,       // before the command decides
    entryWritten: bool,      // the corrected state could be written
    prepared: bool,          // manifest, backend and prerequisites
    progressWritten: bool,   // the operation in progress could be written
    backendReached: bool,    // what the backend call needs could be read
    signalled: bool,         // an interrupt arrived during the backend call
    backendOk: bool,
    upAfter: bool,           // the runtime after the backend call
    portUnavailable: bool,   // the failure is a host port in use
    finished: bool,          // the steps after the backend call
    failureProbe: Probe,     // after a failure
    cleanupOk: bool,         // stopping what a failure left running
    finalWritten: bool)      // the final state could be written

  datatype State = State(disk: Workflow, up: bool)

  function Wrote(s: State, w: Workflow, written: bool): State {
    if written then s.(disk := w) else s
  }

  function Last(trace: seq<State>): State
    requires trace != []
  {
    trace[|trace| - 1]
  }

  /** A recorded Running is corrected when the runtime turns out to be down; None when the
      command has to end here. */
  function Reconciled(s: State, a: Answers, local: bool): Option<State> {
    if !local || s.disk != Running then Some(s)
    else if a.entryProbe == Unreachable then None
    else if a.entryProbe != Down then Some(s)
    else if a.entryWritten then Some(s.(disk := Stopped))
    else None
  }

  /** The states a failed start or stop passes through at its end. */
  function LifecycleFailure(s: State, op: Operation, a: Answers, local: bool): seq<State> {
    if a.portUnavailable then [Wrote(s, Stopped, a.finalWritten)]
    else if !local || a.failureProbe == Unreachable then [Wrote(s, Interrupted(op), a.finalWritten)]
    else if a.failureProbe == Up then
      if a.cleanupOk then [s.(up := false), Wrote(s.(up := false), Stopped, a.finalWritten)]
      else [Wrote(s, Interrupted(op), a.finalWritten)]
    else [Wrote(s, Stopped, a.finalWritten)]
  }

  function StartBackendTrace(s: State, a: Answers, local: bool): seq<State> {
    var s3 := s.(up := a.upAfter);
    [s3] + if a.signalled then [Wrote(s3, Interrupted(Start), a.finalWritten)]
           else if a.backendOk then [Wrote(s3, Running, a.finalWritten)]
           else LifecycleFailure(s3, Start, a, local)
  }

  /** The states a command passes through, the first being the one it finds. It may be killed
      at each of them. */
  function StartTrace(s: State, a: Answers, local: bool): seq<State> {
    match Reconciled(s, a, local)
    case None => [s]
    case Some(s1) =>
      if !PermitsStart(s1.disk) || !a.prepared then [s, s1]
      else
        var s2 := Wrote(s1, InProgress(Start), a.progressWritten);
        [s, s1, s2] + StartBackendTrace(s2, a, local)
  }

  function StopBackendTrace(s: State, a: Answers, local: bool): seq<State> {
    if !a.backendReached then []
    else
      var s3 := s.(up := s.up && a.upAfter);
      [s3] + if a.signalled then [Wrote(s3, Interrupted(Stop), a.finalWritten)]
             else if a.backendOk then [Wrote(s3, Stopped, a.finalWritten)]
             else LifecycleFailure(s3, Stop, a, local)
  }

  function StopTrace(s: State, a: Answers, local: bool): seq<State> {
    match Reconciled(s, a, local)
    case None => [s]
    case Some(s1) =>
      if !PermitsStop(s1.disk) then [s, s1]
      else
        var s2 := Wrote(s1, InProgress(Stop), a.progressWritten);
        [s, s1, s2] + StopBackendTrace(s2, a, local)
  }

  function DeployBackendTrace(s: State, a: Answers): seq<State> {
    if !a.backendReached then []
    else
      var s3 := s.(up := a.upAfter);
      var final :=
        if a.signalled then Interrupted(Deploy)
        else if !a.backendOk && a.portUnavailable then Initialized
        else if !a.backendOk || !a.finished then DeploymentFailed
        else Running;
      [s3, Wrote(s3, final, a.finalWritten)]
  }

  function DeployTrace(s: State, a: Answers): seq<State> {
    if !PermitsDeploy(s.disk) || !a.prepared then [s]
    else
      var s2 := Wrote(s, InProgress(Deploy), a.progressWritten);
      [s, s2] + DeployBackendTrace(s2, a)
  }

  function DestroyBackendTrace(s: State, a: Answers): seq<State> {
    if !a.backendReached then [Wrote(s, Interrupted(Destroy), a.finalWritten)]
    else
      var s3 := s.(up := s.up && a.upAfter);
      if a.signalled || !a.backendOk then [s3, Wrote(s3, Interrupted(Destroy), a.finalWritten)]
      else if !a.finished then [s3]
      else [s3, Wrote(s3, Initialized, a.finalWritten)]
  }

  function DestroyTrace(s: State, a: Answers): seq<State> {
    var s2 := Wrote(s, InProgress(Destroy), a.progressWritten);
    [s, s2] + DestroyBackendTrace(s2, a)
  }

  function Trace(s: State, op: Operation, a: Answers, local: bool): (t: seq<State>)
    ensures t != [] && t[0] == s
  {
    match op
    case Deploy => DeployTrace(s, a)
    case Destroy => DestroyTrace(s, a)
    case Start => StartTrace(s, a, local)
    case Stop => StopTrace(s, a, local)
  }

  /** The runtime after the backend call: stopping and destroying never bring it up. */
  function UpAfter(s: State, op: Operation, a: Answers): bool {
    a.upAfter && (op == Start || op == Deploy || s.up)
  }

  /** Probes that answer tell the truth, a successful start or deploy leaves the runtime up, a
      successful stop or destroy leaves it down, and a port conflict is found only by a start or
      deploy, with the runtime down. */
  predicate Truthful(s: State, op: Operation, a: Answers) {
    && (a.entryProbe == Up ==> s.up) && (a.entryProbe == Down ==> !s.up)
    && (a.failureProbe == Up ==> UpAfter(s, op, a)) && (a.failureProbe == Down ==> !UpAfter(s, op, a))
    && (a.backendOk && !a.signalled ==> (UpAfter(s, op, a) <==> op == Start || op == Deploy))
    && (!a.backendOk && a.portUnavailable ==> (op == Start || op == Deploy) && !UpAfter(s, op, a))
  }

  // ----- what a command leaves behind, by how its calls turned out -----

  /** The commands that each recorded state permits, besides destroy. */
  function Table(w: Workflow): set<Operation> {
    match w
    case Initialized => {Deploy}
    case DeploymentFailed => {Deploy}
    case Running => {Deploy, Stop}
    case Stopped => {Start}
    case InProgress(op) => {op} - {Destroy}
    case Interrupted(op) =>
      match op
      case Deploy => {Deploy}
      case Start => {Start, Stop}
      case Stop => {Start, Stop}
      case Destroy => {Stop}
  }

  lemma PermittedCommands(w: Workflow)
    ensures PermitsDeploy(w) <==> Deploy in Table(w)
    ensures PermitsStart(w) <==> Start in Table(w)
    ensures PermitsStop(w) <==> Stop in Table(w)
    ensures forall local :: PermitsConfigure(w, local) <==> w == Initialized || (w == Stopped && local)
  {
  }

  /** Running is recorded anew only by a start or deploy whose backend call succeeded without an
      interrupt, a deploy only after all its steps; and then the runtime is up. */
  lemma RunningIsEarned(s: State, op: Operation, a: Answers, local: bool, k: nat)
    requires 0 < k < |Trace(s, op, a, local)|
    requires Trace(s, op, a, local)[k - 1].disk != Running && Trace(s, op, a, local)[k].disk == Running
    ensures (op == Start || (op == Deploy && a.finished)) && a.backendOk && !a.signalled && a.finalWritten
    ensures Truthful(s, op, a) ==> Trace(s, op, a, local)[k].up
  {
    match op
    case Deploy => EarnedByDeploy(s, a, k);
    case Start => EarnedByStart(s, a, local, k);
    case Stop => NeverByStop(s, a, local, k);
    case Destroy => NeverByDestroy(s, a, k);
  }

  lemma EarnedByDeploy(s: State, a: Answers, k: nat)
    requires 0 < k < |DeployTrace(s, a)| && DeployTrace(s, a)[k - 1].disk != Running && DeployTrace(s, a)[k].disk == Running
    ensures a.finished && a.backendOk && !a.signalled && a.finalWritten && (Truthful(s, Deploy, a) ==> DeployTrace(s, a)[k].up)
  {
  }

  lemma EarnedByStart(s: State, a: Answers, local: bool, k: nat)
    requires 0 < k < |StartTrace(s, a, local)|
    requires StartTrace(s, a, local)[k - 1].disk != Running && StartTrace(s, a, local)[k].disk == Running
    ensures a.backendOk && !a.signalled && a.finalWritten && (Truthful(s, Start, a) ==> StartTrace(s, a, local)[k].up)
  {
  }

  lemma NeverByStop(s: State, a: Answers, local: bool, k: nat)
    requires 0 < k < |StopTrace(s, a, local)|
    ensures StopTrace(s, a, local)[k - 1].disk != Running ==> StopTrace(s, a, local)[k].disk != Running
  {
    var r := Reconciled(s, a, local);
    if r.Some? && PermitsStop(r.value.disk) {
      var s2 := Wrote(r.value, InProgress(Stop), a.progressWritten);
      var rest := StopBackendTrace(s2, a, local);
      assert StopTrace(s, a, local) == [s, r.value, s2] + rest;
      StopBackendIsNotRunning(s2, a, local);
      hide StopBackendTrace, StopTrace;
      if k >= 3 {
        assert StopTrace(s, a, local)[k] == rest[k - 3];
        assert StopTrace(s, a, local)[k - 1] == if k == 3 then s2 else rest[k - 4];
      }
    }
  }

  /** Around the backend call of a stop, Running is recorded only if it was before. */
  lemma StopBackendIsNotRunning(s: State, a: Answers, local: bool)
    ensures forall i :: 0 <= i < |StopBackendTrace(s, a, local)| && StopBackendTrace(s, a, local)[i].disk == Running ==>
      if i == 0 then s.disk == Running else StopBackendTrace(s, a, local)[i - 1].disk == Running
  {
    if a.backendReached {
      var s3 := s.(up := s.up && a.upAfter);
      var t := StopBackendTrace(s, a, local);
      FailureIsNotRunning(s3, a, local);
      hide LifecycleFailure;
      assert t[0] == s3;
      assert t[1..] == if a.signalled then [Wrote(s3, Interrupted(Stop), a.finalWritten)]
                       else if a.backendOk then [Wrote(s3, Stopped, a.finalWritten)]
                       else LifecycleFailure(s3, Stop, a, local);
      assert forall i :: 0 < i < |t| ==> t[i] == t[1..][i - 1];
    }
  }

  lemma FailureIsNotRunning(s: State, a: Answers, local: bool)
    ensures var f := LifecycleFailure(s, Stop, a, local);
      forall i :: 0 <= i < |f| && f[i].disk == Running ==> if i == 0 then s.disk == Running else f[i - 1].disk == Running
  {
    var f := LifecycleFailure(s, Stop, a, local);
    assert 1 <= |f| <= 2;
    assert f[0].disk == Running ==> s.disk == Running;
    if |f| == 2 {
      assert f[0] == s.(up := false) && f[1] == Wrote(f[0], Stopped, a.finalWritten);
    }
    forall i | 0 <= i < |f| && f[i].disk == Running ensures if i == 0 then s.disk == Running else f[i - 1].disk == Running {
      if i == 1 {
        assert f[1].disk == Running ==> f[0].disk == Running;
      }
    }
  }

  lemma NeverByDestroy(s: State, a: Answers, k: nat)
    requires 0 < k < |DestroyTrace(s, a)|
    ensures DestroyTrace(s, a)[k - 1].disk != Running ==> DestroyTrace(s, a)[k].disk != Running
  {
  }

  /** A command that its state does not permit, or whose prerequisites fail, changes nothing. */
  lemma RefusedChangesNothing(s: State, op: Operation, a: Answers, local: bool)
    requires op != Destroy && (s.disk != Running || !local || op == Deploy)
    requires op !in Table(s.disk) || ((op == Deploy || op == Start) && !a.prepared)
    ensures forall k :: 0 <= k < |Trace(s, op, a, local)| ==> Trace(s, op, a, local)[k] == s
  {
    PermittedCommands(s.disk);
  }

  /** The record in progress, or the one before if that could not be written. */
  function Begun(s: State, op: Operation, a: Answers): Workflow {
    if a.progressWritten then InProgress(op) else s.disk
  }

  /** After a deploy: interrupted by a signal, initialised again after a port conflict, failed
      after any other failure of the backend or of the steps behind it, and otherwise running. */
  lemma AfterDeploy(s: State, a: Answers, local: bool)
    requires s.disk in {Initialized, DeploymentFailed, Running, InProgress(Deploy), Interrupted(Deploy)} && a.prepared
    ensures var t := Last(Trace(s, Deploy, a, local));
      && (!a.backendReached || !a.finalWritten ==> t.disk == Begun(s, Deploy, a))
      && (a.backendReached ==> t.up == a.upAfter)
      && (a.backendReached && a.finalWritten ==>
            && (a.signalled ==> t.disk == Interrupted(Deploy))
            && (!a.signalled && !a.backendOk && a.portUnavailable ==> t.disk == Initialized)
            && (!a.signalled && !a.backendOk && !a.portUnavailable ==> t.disk == DeploymentFailed)
            && (!a.signalled && a.backendOk && !a.finished ==> t.disk == DeploymentFailed)
            && (!a.signalled && a.backendOk && a.finished ==> t.disk == Running))
  {
  }

  /** After a failed start or stop: stopped after a port conflict; interrupted where the runtime is
      remote, cannot be reached, or is up and cannot be stopped; and otherwise stopped. */
  predicate LeftByFailure(t: State, op: Operation, a: Answers, local: bool) {
    && (a.portUnavailable ==> t.disk == Stopped)
    && (!a.portUnavailable && (!local || a.failureProbe == Unreachable) ==> t.disk == Interrupted(op))
    && (!a.portUnavailable && local && a.failureProbe == Up && a.cleanupOk ==> t.disk == Stopped && !t.up)
    && (!a.portUnavailable && local && a.failureProbe == Up && !a.cleanupOk ==> t.disk == Interrupted(op))
    && (!a.portUnavailable && local && (a.failureProbe == Down || a.failureProbe == NoAnswer) ==> t.disk == Stopped)
  }

  lemma AfterStart(s: State, a: Answers, local: bool)
    requires s.disk in {Stopped, InProgress(Start), Interrupted(Start), Interrupted(Stop)} && a.prepared
    ensures var t := Last(Trace(s, Start, a, local));
      && (!a.finalWritten ==> t.disk == Begun(s, Start, a))
      && (a.finalWritten && a.signalled ==> t.disk == Interrupted(Start) && t.up == a.upAfter)
      && (a.finalWritten && !a.signalled && a.backendOk ==> t.disk == Running && t.up == a.upAfter)
      && (a.finalWritten && !a.signalled && !a.backendOk ==> LeftByFailure(t, Start, a, local))
  {
  }

  lemma AfterStop(s: State, a: Answers, local: bool)
    requires s.disk in {InProgress(Stop), Interrupted(Start), Interrupted(Stop), Interrupted(Destroy)}
          || (s.disk == Running && (!local || a.entryProbe == Up || a.entryProbe == NoAnswer))
    ensures var t := Last(Trace(s, Stop, a, local));
      && (!a.backendReached || !a.finalWritten ==> t.disk == Begun(s, Stop, a))
      && (a.backendReached && a.finalWritten && a.signalled ==> t.disk == Interrupted(Stop) && t.up == (s.up && a.upAfter))
      && (a.backendReached && a.finalWritten && !a.signalled && a.backendOk ==> t.disk == Stopped && t.up == (s.up && a.upAfter))
      && (a.backendReached && a.finalWritten && !a.signalled && !a.backendOk ==> LeftByFailure(t, Stop, a, local))
  {
  }

  /** A local command that finds Running recorded first asks the runtime: it gives up when the
      answer is that the host cannot be reached, goes on from Stopped when the runtime is down,
      and from Running otherwise. */
  lemma RunningIsChecked(s: State, op: Operation, a: Answers)
    requires s.disk == Running && (op == Start || op == Stop)
    ensures var t := Trace(s, op, a, true);
      && (a.entryProbe == Unreachable || (a.entryProbe == Down && !a.entryWritten) ==> forall k :: 0 <= k < |t| ==> t[k] == s)
      && (a.entryProbe == Down && a.entryWritten ==> Last(t) == Last(Trace(s.(disk := Stopped), op, a, true)))
      && (op == Start && (a.entryProbe == Up || a.entryProbe == NoAnswer) ==> forall k :: 0 <= k < |t| ==> t[k] == s)
  {
  }

  lemma AfterDestroy(s: State, a: Answers, local: bool)
    ensures var t := Last(Trace(s, Destroy, a, local));
      && (!a.finalWritten ==> t.disk == Begun(s, Destroy, a))
      && (a.finalWritten && (!a.backendReached || a.signalled || !a.backendOk) ==> t.disk == Interrupted(Destroy))
      && (a.finalWritten && a.backendReached && !a.signalled && a.backendOk && !a.finished ==> t.disk == Begun(s, Destroy, a))
      && (a.finalWritten && a.backendReached && !a.signalled && a.backendOk && a.finished ==> t.disk == Initialized)
      && (a.backendReached ==> t.up == (s.up && a.upAfter))
  {
  }

  // ----- recorded Stopped means down -----

  predicate StoppedIsDown(s: State) {
    s.disk == Stopped ==> !s.up
  }

  /** A start or stop reaches its backend. */
  predicate Reaches(s: State, op: Operation, a: Answers) {
    var s1 := Reconciled(s, a, true);
    && s1.Some?
    && (op == Start ==> PermitsStart(s1.value.disk) && a.prepared)
    && (op == Stop ==> PermitsStop(s1.value.disk) && a.backendReached)
  }

  /** The two ways to record Stopped beside a runtime that is up: a start from Stopped whose own
      record could not be written, and a failure after which the probe gives no answer. */
  predicate Hazard(s: State, op: Operation, a: Answers) {
    && (op == Start || op == Stop)
    && Reaches(s, op, a)
    && UpAfter(s, op, a)
    && (|| (op == Start && Reconciled(s, a, true).value.disk == Stopped && !a.progressWritten)
        || (!a.signalled && !a.backendOk && a.finalWritten && a.failureProbe == NoAnswer))
  }

  ghost predicate AllStoppedDown(trace: seq<State>) {
    forall i :: 0 <= i < |trace| ==> StoppedIsDown(trace[i])
  }

  lemma AllStoppedDownThen(trace: seq<State>, more: seq<State>)
    ensures AllStoppedDown(trace + more) <==> AllStoppedDown(trace) && AllStoppedDown(more)
  {
    forall i | 0 <= i < |more| ensures (trace + more)[|trace| + i] == more[i] {
    }
    if AllStoppedDown(trace + more) {
      forall i | 0 <= i < |trace| ensures StoppedIsDown(trace[i]) {
        assert (trace + more)[i] == trace[i];
      }
    }
  }

  /** A local start keeps "recorded Stopped means down" at every point exactly when it meets
      none of the hazards. */
  lemma StartKeepsStoppedDown(s: State, a: Answers)
    requires StoppedIsDown(s) && Truthful(s, Start, a)
    ensures AllStoppedDown(StartTrace(s, a, true)) <==> !Hazard(s, Start, a)
  {
    if Reaches(s, Start, a) {
      var s1 := Reconciled(s, a, true).value;
      var s2 := Wrote(s1, InProgress(Start), a.progressWritten);
      AllStoppedDownThen([s, s1, s2], StartBackendTrace(s2, a, true));
      var s3 := s2.(up := a.upAfter);
      AllStoppedDownThen([s3], StartBackendTrace(s2, a, true)[1..]);
      assert [s3][0] == s3;
      if !a.backendOk {
        FailureKeepsStoppedDown(s3, Start, a);
      }
      TraceElements(StartBackendTrace(s2, a, true)[1..]);
    }
  }

  lemma FailureKeepsStoppedDown(s: State, op: Operation, a: Answers)
    requires a.failureProbe == Up ==> s.up
    requires (a.failureProbe == Down ==> !s.up) && (a.portUnavailable ==> !s.up)
    ensures StoppedIsDown(s) ==>
      (AllStoppedDown(LifecycleFailure(s, op, a, true)) <==> !(s.up && a.finalWritten && a.failureProbe == NoAnswer))
  {
    TraceElements(LifecycleFailure(s, op, a, true));
  }

  lemma TraceElements(t: seq<State>)
    ensures |t| > 0 && !StoppedIsDown(t[0]) ==> !AllStoppedDown(t)
    ensures |t| > 1 && !StoppedIsDown(t[1]) ==> !AllStoppedDown(t)
  {
  }

  lemma StopKeepsStoppedDown(s: State, a: Answers)
    requires StoppedIsDown(s) && Truthful(s, Stop, a)
    ensures AllStoppedDown(StopTrace(s, a, true)) <==> !Hazard(s, Stop, a)
  {
    if Reaches(s, Stop, a) {
      var s1 := Reconciled(s, a, true).value;
      var s2 := Wrote(s1, InProgress(Stop), a.progressWritten);
      AllStoppedDownThen([s, s1, s2], StopBackendTrace(s2, a, true));
      var s3 := s2.(up := s2.up && a.upAfter);
      AllStoppedDownThen([s3], StopBackendTrace(s2, a, true)[1..]);
      assert [s3][0] == s3;
      if !a.backendOk {
        FailureKeepsStoppedDown(s3, Stop, a);
      }
      TraceElements(StopBackendTrace(s2, a, true)[1..]);
    }
  }

  /** Each of the hazards can happen, with answers that are otherwise truthful. */
  lemma HazardsHappen()
    ensures var a := Smooth(State(Stopped, false), Start).(progressWritten := false);
            Truthful(State(Stopped, false), Start, a) && Hazard(State(Stopped, false), Start, a)
    ensures var a := Smooth(State(Stopped, false), Start).(backendOk := false, failureProbe := NoAnswer);
            Truthful(State(Stopped, false), Start, a) && Hazard(State(Stopped, false), Start, a)
    ensures var a := Smooth(State(Running, true), Stop).(backendOk := false, upAfter := true, failureProbe := NoAnswer);
            Truthful(State(Running, true), Stop, a) && Hazard(State(Running, true), Stop, a)
  {
  }

  lemma DeployAndDestroyKeepStoppedDown(s: State, op: Operation, a: Answers)
    requires StoppedIsDown(s) && (op == Deploy || op == Destroy)
    ensures AllStoppedDown(Trace(s, op, a, true))
  {
  }

  lemma CommandKeepsStoppedDown(s: State, op: Operation, a: Answers)
    requires StoppedIsDown(s) && Truthful(s, op, a)
    ensures AllStoppedDown(Trace(s, op, a, true)) <==> !Hazard(s, op, a)
  {
    match op
    case Start => StartKeepsStoppedDown(s, a);
    case Stop => StopKeepsStoppedDown(s, a);
    case _ => DeployAndDestroyKeepStoppedDown(s, op, a);
  }

  // ----- over whole runs -----

  /** A command that ran to the end or was killed at some point of its trace, or the runtime
      going down by itself. */
  datatype Event = Command(operation: Operation, answers: Answers, stoppedAt: nat) | RuntimeDies

  function After(s: State, e: Event, local: bool): State {
    match e
    case RuntimeDies => s.(up := false)
    case Command(op, a, k) =>
      var t := Trace(s, op, a, local);
      if k < |t| then t[k] else Last(t)
  }

  function Run(s: State, events: seq<Event>, local: bool): State {
    if events == [] then s else After(Run(s, events[..|events| - 1], local), events[|events| - 1], local)
  }

  /** Every command of the run meets truthful answers and none of the hazards. */
  ghost predicate CleanRun(s: State, events: seq<Event>) {
    forall i :: 0 <= i < |events| && events[i].Command? ==>
      var before := Run(s, events[..i], true);
      Truthful(before, events[i].operation, events[i].answers) && !Hazard(before, events[i].operation, events[i].answers)
  }

  /** Along every clean run of a local deployment recorded Stopped means the runtime is down; so
      configuration is only permitted before the deployment or with the runtime down. */
  lemma {:induction false} ConfigureOnlyWhenDown(s: State, events: seq<Event>)
    requires StoppedIsDown(s) && CleanRun(s, events)
    ensures StoppedIsDown(Run(s, events, true))
    ensures PermitsConfigure(Run(s, events, true).disk, true) ==>
              Run(s, events, true).disk == Initialized || !Run(s, events, true).up
    decreases |events|
  {
    hide Trace, Truthful, Hazard;
    if events != [] {
      var before, e := events[..|events| - 1], events[|events| - 1];
      assert forall i :: 0 <= i < |before| ==> before[i] == events[i] && before[..i] == events[..i];
      ConfigureOnlyWhenDown(s, before);
      if e.Command? {
        var s1 := Run(s, before, true);
        assert Truthful(s1, e.operation, e.answers) && !Hazard(s1, e.operation, e.answers);
        CommandKeepsStoppedDown(s1, e.operation, e.answers);
      }
    }
  }

  // ----- no dead end -----

  /** Everything succeeds. */
  function Smooth(s: State, op: Operation): Answers {
    Answers(if s.up then Up else Down, true, true, true, true, false, true, op == Start || op == Deploy, false, true, NoAnswer, true, true)
  }

  predicate Permits(s: State, op: Operation, local: bool) {
    match op
    case Deploy => PermitsDeploy(s.disk)
    case Destroy => true
    case Start => var s1 := Reconciled(s, Smooth(s, op), local); s1.Some? && PermitsStart(s1.value.disk)
    case Stop => var s1 := Reconciled(s, Smooth(s, op), local); s1.Some? && PermitsStop(s1.value.disk)
  }

  /** The commands are permitted one after the other and, all succeeding, end in Running. */
  predicate LeadsToRunning(s: State, commands: seq<Operation>, local: bool)
    decreases |commands|
  {
    if commands == [] then s.disk == Running
    else Permits(s, commands[0], local) && LeadsToRunning(Last(Trace(s, commands[0], Smooth(s, commands[0]), local)), commands[1..], local)
  }

  function WayOut(w: Workflow): seq<Operation> {
    match w
    case Running => []
    case Initialized => [Deploy]
    case DeploymentFailed => [Deploy]
    case Stopped => [Start]
    case InProgress(op) => if op == Stop then [Stop, Start] else if op == Destroy then [Destroy, Deploy] else [op]
    case Interrupted(op) => if op == Destroy then [Stop, Start] else if op == Stop then [Start] else [op]
  }

  /** A permitted command that succeeds reaches its goal. */
  lemma SmoothCommand(s: State, op: Operation, local: bool)
    requires Permits(s, op, local)
    ensures var t := Last(Trace(s, op, Smooth(s, op), local));
            && t.disk == (match op case Start => Running case Deploy => Running case Stop => Stopped case Destroy => Initialized)
            && (t.up <==> op == Start || op == Deploy)
  {
  }

  /** Whatever a failed, interrupted or killed command recorded, at most two permitted commands
      lead to Running; and they need not destroy anything, except after a killed destroy. */
  lemma NoDeadEnd(s: State, local: bool)
    ensures LeadsToRunning(s, WayOut(s.disk), local) && |WayOut(s.disk)| <= 2
    ensures Destroy in WayOut(s.disk) <==> s.disk == InProgress(Destroy)
  {
    hide Trace, Smooth;
    var way := WayOut(s.disk);
    if |way| > 0 {
      SmoothCommand(s, way[0], local);
      if |way| == 2 {
        var s1 := Last(Trace(s, way[0], Smooth(s, way[0]), local));
        SmoothCommand(s1, way[1], local);
        var s2 := Last(Trace(s1, way[1], Smooth(s1, way[1]), local));
        assert way[1..] == [way[1]] && way[1..][1..] == [];
        assert LeadsToRunning(s2, [], local);
        assert LeadsToRunning(s1, way[1..], local);
      }
    }
  }

  /** After a killed destroy no other command is permitted, so destroying again is the only way
      on. */
  lemma KilledDestroyMustBeRepeated(s: State, op: Operation, local: bool)
    requires s.disk == InProgress(Destroy)
    ensures Permits(s, op, local) <==> op == Destroy
  {
  }

  // ----- the commands as the source runs them -----

  class Deployment {
    const local: bool
    var memory: WorkflowRecord
    var disk: WorkflowRecord
    var up: bool
    /** The states the deployment went through. */
    ghost var trail: seq<State>

    ghost predicate Valid()
      reads this
    {
      Fields(disk) == 1 && Fields(memory) == 1
    }

    function Now(): State
      requires Fields(disk) == 1
      reads this
    {
      State(Current(disk), up)
    }

    ghost method Note()
      requires Valid()
      modifies `trail
      ensures trail == old(trail) + [Now()]
    {
      trail := trail + [Now()];
    }

    method SetWorkflowStateAndWrite(w: Workflow, written: bool)
      requires Valid()
      modifies `memory, `disk
      ensures Valid() && memory == SetWorkflowState(w)
      ensures Now() == Wrote(old(Now()), w, written)
      ensures written ==> memory == disk
    {
      RecordRoundTrip(w, disk);
      memory := SetWorkflowState(w);
      if written {
        disk := memory;
      }
    }

    method ReconcileLocalVMState(a: Answers) returns (ok: bool)
      requires Valid() && memory == disk
      modifies `memory, `disk
      ensures Valid() && ok == Reconciled(old(Now()), a, local).Some?
      ensures ok ==> memory == disk && Now() == Reconciled(old(Now()), a, local).value
    {
      hide Fields, Current, SetWorkflowState;
      if !local || Current(memory) != Running {
        return true;
      }
      if a.entryProbe == Unreachable {
        return false;
      }
      if a.entryProbe != Down {
        return true;
      }
      SetWorkflowStateAndWrite(Stopped, a.entryWritten);
      return a.entryWritten;
    }

    method RecordLifecycleFailure(op: Operation, a: Answers)
      requires Valid()
      modifies this
      ensures Valid() && trail == old(trail) + LifecycleFailure(old(Now()), op, a, local)
    {
      hide Fields, Current, SetWorkflowState;
      if a.portUnavailable {
        SetWorkflowStateAndWrite(Stopped, a.finalWritten);
        Note();
        return;
      }
      if !local || a.failureProbe == Unreachable {
        SetWorkflowStateAndWrite(Interrupted(op), a.finalWritten);
        Note();
        return;
      }
      if a.failureProbe == Up {
        if !a.cleanupOk {
          SetWorkflowStateAndWrite(Interrupted(op), a.finalWritten);
          Note();
          return;
        }
        up := false;
        Note();
      }
      SetWorkflowStateAndWrite(Stopped, a.finalWritten);
      Note();
    }

    method StartLocked(a: Answers)
      requires Valid()
      modifies this
      ensures Valid() && trail == old(trail) + StartTrace(old(Now()), a, local)
    {
      hide Fields, Current, SetWorkflowState, StartBackendTrace;
      memory := disk;
      Note();
      var ok := ReconcileLocalVMState(a);
      if !ok {
        return;
      }
      Note();
      if !PermitsStart(Current(memory)) || !a.prepared {
        return;
      }
      SetWorkflowStateAndWrite(InProgress(Start), a.progressWritten);
      Note();
      RunStartBackend(a);
    }

    method RunStartBackend(a: Answers)
      requires Valid()
      modifies this
      ensures Valid() && trail == old(trail) + StartBackendTrace(old(Now()), a, local)
    {
      hide Fields, Current, SetWorkflowState, LifecycleFailure;
      up := a.upAfter;
      Note();
      if a.signalled {
        SetWorkflowStateAndWrite(Interrupted(Start), a.finalWritten);
        Note();
        return;
      }
      if !a.backendOk {
        RecordLifecycleFailure(Start, a);
        return;
      }
      SetWorkflowStateAndWrite(Running, a.finalWritten);
      Note();
    }

    method StopLocked(a: Answers)
      requires Valid()
      modifies this
      ensures Valid() && trail == old(trail) + StopTrace(old(Now()), a, local)
    {
      hide Fields, Current, SetWorkflowState, StopBackendTrace;
      memory := disk;
      Note();
      var ok := ReconcileLocalVMState(a);
      if !ok {
        return;
      }
      Note();
      if !PermitsStop(Current(memory)) {
        return;
      }
      SetWorkflowStateAndWrite(InProgress(Stop), a.progressWritten);
      Note();
      RunStopBackend(a);
    }

    method RunStopBackend(a: Answers)
      requires Valid()
      modifies this
      ensures Valid() && trail == old(trail) + StopBackendTrace(old(Now()), a, local)
    {
      hide Fields, Current, SetWorkflowState, LifecycleFailure;
      if !a.backendReached {
        return;
      }
      up := up && a.upAfter;
      Note();
      if a.signalled {
        SetWorkflowStateAndWrite(Interrupted(Stop), a.finalWritten);
        Note();
        return;
      }
      if !a.backendOk {
        RecordLifecycleFailure(Stop, a);
        return;
      }
      SetWorkflowStateAndWrite(Stopped, a.finalWritten);
      Note();
    }

    method DeployLocked(a: Answers)
      requires Valid()
      modifies this
      ensures Valid() && trail == old(trail) + DeployTrace(old(Now()), a)
    {
      hide Fields, Current, SetWorkflowState, DeployBackendTrace;
      memory := disk;
      Note();
      if !PermitsDeploy(Current(memory)) || !a.prepared {
        return;
      }
      SetWorkflowStateAndWrite(InProgress(Deploy), a.progressWritten);
      Note();
      RunDeployBackend(a);
    }

    method RunDeployBackend(a: Answers)
      requires Valid()
      modifies this
      ensures Valid() && trail == old(trail) + DeployBackendTrace(old(Now()), a)
    {
      hide Fields, Current, SetWorkflowState;
      if !a.backendReached {
        return;
      }
      up := a.upAfter;
      Note();
      if a.signalled {
        SetWorkflowStateAndWrite(Interrupted(Deploy), a.finalWritten);
      } else if !a.backendOk && a.portUnavailable {
        SetWorkflowStateAndWrite(Initialized, a.finalWritten);
      } else if !a.backendOk || !a.finished {
        SetWorkflowStateAndWrite(DeploymentFailed, a.finalWritten);
      } else {
        SetWorkflowStateAndWrite(Running, a.finalWritten);
      }
      Note();
    }

    method DestroyLocked(a: Answers)
      requires Valid()
      modifies this
      ensures Valid() && trail == old(trail) + DestroyTrace(old(Now()), a)
    {
      hide Fields, Current, SetWorkflowState, DestroyBackendTrace;
      memory := disk;
      Note();
      SetWorkflowStateAndWrite(InProgress(Destroy), a.progressWritten);
      Note();
      RunDestroyBackend(a);
    }

    method RunDestroyBackend(a: Answers)
      requires Valid()
      modifies this
      ensures Valid() && trail == old(trail) + DestroyBackendTrace(old(Now()), a)
    {
      hide Fields, Current, SetWorkflowState;
      if !a.backendReached {
        SetWorkflowStateAndWrite(Interrupted(Destroy), a.finalWritten);
        Note();
        return;
      }
      up := up && a.upAfter;
      Note();
      if a.signalled || !a.backendOk {
        SetWorkflowStateAndWrite(Interrupted(Destroy), a.finalWritten);
        Note();
        return;
      }
      if !a.finished {
        return;
      }
      SetWorkflowStateAndWrite(Initialized, a.finalWritten);
      Note();
    }
  }
}
