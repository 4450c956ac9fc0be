/**
 The function runtime as a state machine.

 Everything runs on one JavaScript thread, so each handler, and each stretch of
 an async function between two awaits, is one step. The steps interleave freely:
 deploys, invocations, nested calls, scheduler calls, worker replies, timeouts,
 worker crashes, the continuation of a settled invocation and the end of a send.
 The heap is explicit: `versions` are the script objects ever deployed, `calls`
 the activations of invokeOnce. A replaced version keeps its pending requests.
 */
module RuntimeModel {
  import opened Wrappers
  import opened Text
  import opened InvokeErrors
  import opened NestedTransactions
  import opened MutationScopes

  const MAX_SCRIPTS: nat := 100

  datatype Cause = WorkerError | Timeout | WorkerCrash

  /** How the promise of an invocation was settled. */
  datatype Answer = Replied(response: Response) | Rejected(error: string, cause: Cause)

  /** What invokeOnce gives its caller. */
  datatype CallResult = Returns(response: Response) | Throws(error: string)

  /** One version of a function: its worker's kind and the requests in flight on it. */
  datatype Version = Version(id: string, kind: Kind, nextReqId: nat, pending: map<nat, nat>)

  /** Where a nested call came from: the calling activation, and its kind as the script table had it then. */
  datatype Origin = Origin(caller: nat, seenKind: Kind)

  /**
   One activation of invokeOnce. `openedAt` and `closedAt` are the positions of its two calls on the scope
   table; `answer` is the settled promise, `result` what the caller got.
   */
  datatype Call = Call(
    version: nat, id: string, kind: Kind, reqId: nat, projectId: string,
    inherited: Ref, ref: Ref, openedAt: nat, depth: int, origin: Option<Origin>,
    answer: Option<Answer>, closedAt: Option<nat>, result: Option<CallResult>)

  datatype Metrics = Metrics(invocationsTotal: nat, invocationsError: nat, timeoutsTotal: nat, deploysTotal: nat)

  datatype State<Op> = State(
    maxDepth: nat,
    scripts: map<string, nat>,
    versions: seq<Version>,
    calls: seq<Call>,
    deploys: map<nat, string>,
    nextDeploy: nat,
    trace: Trace<Op>,
    acknowledged: set<nat>,
    direct: seq<(string, Op)>,
    metrics: Metrics)

  datatype Input<Op> =
    | DeployStarts(id: string)
    | DeployReady(token: nat, kind: Kind)
    | DeployFails(token: nat)
    | Deletes(id: string)
    | Invokes(id: string, txnRef: Ref, bodyDepth: int, envelopeDepth: int, uuid: string)
    | RunX(caller: nat, moduleName: string, uuid: string)
    | Schedules(caller: nat, op: Op)
    | Replies(version: nat, reqId: nat, response: Response)
    | ReportsError(version: nat, reqId: nat, error: string)
    | TimesOut(version: nat, reqId: nat)
    | Crashes(version: nat, message: string)
    | Resumes(call: nat)
    | SendEnds(call: nat, resolved: bool)

  ghost function Init<Op>(maxDepth: nat): State<Op> {
    State(maxDepth, map[], [], [], map[], 0, [], {}, [], Metrics(0, 0, 0, 0))
  }

  // ---------------------------------------------------------------- ids and kinds

  /** The project part of a runtime id `<project>__<function>`; none without a separator. */
  function ProjectPart(id: string): Option<string> {
    match Find(id, "__")
    case Some(sep) => Some(id[..sep])
    case None => None
  }

  /** The project an invocation opens its scope for: "" when the id has no project part. */
  function ProjectOf(id: string): string {
    match ProjectPart(id)
    case Some(project) => project
    case None => ""
  }

  predicate IsHttp(kind: Kind) { kind.HttpAction? || kind.HttpRouter? }

  predicate IsTyped(kind: Kind) { kind.Query? || kind.Mutation? || kind.Action? }

  /** The kind the script table has for an id; none for one it does not hold. */
  function KindIn(scripts: map<string, nat>, versions: seq<Version>, id: string): Kind {
    if id in scripts && scripts[id] < |versions| then versions[scripts[id]].kind else NoKind
  }

  /** The read-only matrix: a query may call neither a mutation nor an action. */
  predicate MatrixAllows(callerKind: Kind, targetKind: Kind) {
    callerKind.Query? ==> !targetKind.Mutation? && !targetKind.Action?
  }

  // ---------------------------------------------------------------- responses

  /** A non-2xx status, or a JSON body with a top-level error text. */
  predicate IsFailure(res: Response) {
    res.status < 200 || res.status >= 300 || (res.body.Json? && res.body.error.Some?)
  }

  predicate Succeeds(answer: Answer) {
    answer.Replied? && !IsFailure(answer.response)
  }

  function ScheduleFailed(res: Response): Response {
    res.(status := 500, body := SCHEDULE_FAILED_BODY)
  }

  /** A reply as the promise resolves with it: a missing status counts as 200. */
  function Resolved(response: Response): Answer {
    Replied(if response.status == 0 then response.(status := 200) else response)
  }

  function ReportText(error: string): string {
    if error == "" then "worker error" else error
  }

  function CrashMessage(message: string): string {
    "worker crashed: " + (if message == "" then "unknown" else message)
  }

  // ---------------------------------------------------------------- steps

  /** The synchronous part of invokeOnce: number the request, open the scope, post to the worker. */
  ghost function StartCall<Op>(s: State<Op>, v: nat, inherited: Ref, bodyDepth: int, envelopeDepth: int,
                               origin: Option<Origin>, uuid: string): State<Op>
    requires v < |s.versions|
  {
    var version := s.versions[v];
    var c := |s.calls|;
    var project := ProjectOf(version.id);
    var trace := s.trace + [Open(version.kind, inherited, project, uuid)];
    var ref := if Starts(trace, |s.trace|) then NewRef(uuid) else "";
    var depth := if IsTyped(version.kind) then bodyDepth else if IsHttp(version.kind) then envelopeDepth else 0;
    var call := Call(v, version.id, version.kind, version.nextReqId, project, inherited, ref, |s.trace|, depth, origin,
                     None, None, None);
    s.(versions := s.versions[v := version.(nextReqId := version.nextReqId + 1,
                                            pending := version.pending[version.nextReqId := c])],
       calls := s.calls + [call],
       trace := trace)
  }

  /** Settles the promise of the request pending on a version, if there is one. */
  ghost function SettleCall<Op>(s: State<Op>, v: nat, reqId: nat, answer: Answer): State<Op>
    requires v < |s.versions| && reqId in s.versions[v].pending && s.versions[v].pending[reqId] < |s.calls|
  {
    var version := s.versions[v];
    var c := version.pending[reqId];
    s.(versions := s.versions[v := version.(pending := version.pending - {reqId})],
       calls := s.calls[c := s.calls[c].(answer := Some(answer))])
  }

  ghost predicate IsPending<Op>(s: State<Op>, v: nat, reqId: nat) {
    v < |s.versions| && reqId in s.versions[v].pending && s.versions[v].pending[reqId] < |s.calls|
  }

  function Counted(m: Metrics, answer: Answer): Metrics {
    m.(invocationsTotal := m.invocationsTotal + 1,
       invocationsError := m.invocationsError + (if answer.Rejected? then 1 else 0),
       timeoutsTotal := m.timeoutsTotal + (if answer.Rejected? && answer.cause.Timeout? then 1 else 0))
  }

  /** A reply, an error report or a timeout reaches a request; one no longer pending is ignored. A timeout
      that leaves its version idle also takes the id out of the script table. */
  ghost function SettleStep<Op>(s: State<Op>, v: nat, reqId: nat, answer: Answer): State<Op> {
    if !IsPending(s, v, reqId) then s
    else
      var settled := SettleCall(s, v, reqId, answer).(metrics := Counted(s.metrics, answer));
      if answer.Rejected? && answer.cause.Timeout? && settled.versions[v].pending == map[]
      then settled.(scripts := s.scripts - {s.versions[v].id}) else settled
  }

  /** What dispatchRunX lets a nested call do: the version it reaches, the ref it is handed and the
      caller's kind as the script table has it now. */
  ghost function RunXTarget<Op>(s: State<Op>, p: nat, moduleName: string): (nat, Ref, Kind)
    requires p < |s.calls| && RunXAllowed(s, p, moduleName)
  {
    var caller := s.calls[p];
    var target := ProjectPart(caller.id).value + "__" + moduleName;
    var callerKind := KindIn(s.scripts, s.versions, caller.id);
    var targetKind := KindIn(s.scripts, s.versions, target);
    (s.scripts[target], if callerKind.Mutation? && targetKind.Mutation? then caller.ref else "", callerKind)
  }

  /** The checks a nested call passes in the worker and in dispatchRunX. */
  ghost predicate RunXAllowed<Op>(s: State<Op>, p: nat, moduleName: string)
    requires p < |s.calls|
  {
    var caller := s.calls[p];
    && (IsTyped(caller.kind) || IsHttp(caller.kind))
    && moduleName != ""
    && caller.depth + 1 <= s.maxDepth
    && ProjectPart(caller.id).Some?
    && var target := ProjectPart(caller.id).value + "__" + moduleName;
    && MatrixAllows(KindIn(s.scripts, s.versions, caller.id), KindIn(s.scripts, s.versions, target))
    && target in s.scripts
    && s.scripts[target] < |s.versions|
  }

  ghost function RunXStep<Op>(s: State<Op>, p: nat, moduleName: string, uuid: string): State<Op>
    requires p < |s.calls|
  {
    if !RunXAllowed(s, p, moduleName) then s
    else
      var (v, inherited, seenKind) := RunXTarget(s, p, moduleName);
      StartCall(s, v, inherited, s.calls[p].depth + 1, 0, Some(Origin(p, seenKind)), uuid)
  }

  /** A ctx.scheduler call: held in the caller's scope, or sent at once when it carries no ref. */
  ghost function ScheduleStep<Op>(s: State<Op>, p: nat, op: Op): State<Op>
    requires p < |s.calls|
  {
    var caller := s.calls[p];
    if !(IsTyped(caller.kind) || IsHttp(caller.kind)) then s
    else match ProjectPart(caller.id)
      case None => s
      case Some(project) =>
        if caller.ref != "" then s.(trace := s.trace + [Hold(caller.ref, project, op)])
        else s.(direct := s.direct + [(project, op)])
  }

  /** What the caller is told at once, by what the close lost or hands over. */
  function ToldAtClose(answer: Answer, lost: bool, sends: bool): Option<CallResult> {
    match answer
    case Rejected(error, _) => Some(Throws(error))
    case Replied(response) =>
      if lost then Some(Returns(ScheduleFailed(response))) else if sends then None else Some(Returns(response))
  }

  /** The continuation of invokeOnce after its promise settled: close the scope, then send or return. */
  ghost function ResumeStep<Op>(s: State<Op>, c: nat): State<Op>
    requires c < |s.calls| && s.calls[c].answer.Some? && s.calls[c].closedAt.None?
  {
    var call := s.calls[c];
    var answer := call.answer.value;
    var trace := s.trace + [Close(call.ref, if Succeeds(answer) then Succeeded else Failed)];
    var n := |s.trace|;
    var result := ToldAtClose(answer, LostBy(trace, n), SentBy(trace, n) != []);
    s.(trace := trace, calls := s.calls[c := call.(closedAt := Some(n), result := result)])
  }

  ghost function SendEndStep<Op>(s: State<Op>, c: nat, resolved: bool): State<Op>
    requires c < |s.calls| && Sending(s.calls[c])
  {
    var call := s.calls[c];
    var response := call.answer.value.response;
    s.(calls := s.calls[c := call.(result := Some(Returns(if resolved then response else ScheduleFailed(response))))],
       acknowledged := if resolved then s.acknowledged + {call.closedAt.value} else s.acknowledged)
  }

  /** The scope is closed and its calls are on their way to provisioning. */
  ghost predicate Sending(call: Call) {
    call.closedAt.Some? && call.result.None? && call.answer.Some? && call.answer.value.Replied?
  }

  ghost function CrashStep<Op>(s: State<Op>, v: nat, error: string): State<Op>
    requires v < |s.versions|
  {
    var version := s.versions[v];
    s.(versions := s.versions[v := version.(pending := map[])],
       calls := seq(|s.calls|, c requires 0 <= c < |s.calls| =>
         if c in version.pending.Values then s.calls[c].(answer := Some(Rejected(error, WorkerCrash))) else s.calls[c]),
       scripts := s.scripts - {version.id})
  }

  /** An input that names nothing the runtime knows changes nothing; nor does one with a uuid drawn before,
      which the random source never repeats. */
  ghost function Next<Op>(s: State<Op>, e: Input<Op>): State<Op> {
    match e
    case DeployStarts(id) =>
      if |s.scripts| >= MAX_SCRIPTS && id !in s.scripts then s
      else s.(deploys := s.deploys[s.nextDeploy := id], nextDeploy := s.nextDeploy + 1)
    case DeployReady(token, kind) =>
      if token !in s.deploys then s
      else
        var id := s.deploys[token];
        s.(deploys := s.deploys - {token},
           versions := s.versions + [Version(id, kind, 1, map[])],
           scripts := s.scripts[id := |s.versions|],
           metrics := s.metrics.(deploysTotal := s.metrics.deploysTotal + 1))
    case DeployFails(token) => s.(deploys := s.deploys - {token})
    case Deletes(id) => s.(scripts := s.scripts - {id})
    case Invokes(id, txnRef, bodyDepth, envelopeDepth, uuid) =>
      if id !in s.scripts || s.scripts[id] >= |s.versions| || !Unused(s.trace, uuid) then s
      else StartCall(s, s.scripts[id], txnRef, bodyDepth, envelopeDepth, None, uuid)
    case RunX(caller, moduleName, uuid) =>
      if caller >= |s.calls| || !Unused(s.trace, uuid) then s else RunXStep(s, caller, moduleName, uuid)
    case Schedules(caller, op) =>
      if caller >= |s.calls| then s else ScheduleStep(s, caller, op)
    case Replies(v, reqId, response) => SettleStep(s, v, reqId, Resolved(response))
    case ReportsError(v, reqId, error) => SettleStep(s, v, reqId, Rejected(ReportText(error), WorkerError))
    case TimesOut(v, reqId) => SettleStep(s, v, reqId, Rejected("execution timeout (30s)", Timeout))
    case Crashes(v, message) =>
      if v >= |s.versions| then s else CrashStep(s, v, CrashMessage(message))
    case Resumes(c) =>
      if c < |s.calls| && s.calls[c].answer.Some? && s.calls[c].closedAt.None? then ResumeStep(s, c) else s
    case SendEnds(c, resolved) =>
      if c < |s.calls| && Sending(s.calls[c]) then SendEndStep(s, c, resolved) else s
  }

  /** The state after a run of inputs. */
  ghost function After<Op>(s: State<Op>, inputs: seq<Input<Op>>): State<Op>
    decreases |inputs|
  {
    if inputs == [] then s else After(Next(s, inputs[0]), inputs[1..])
  }
}
