/**
 The runtime's tables, updated in place by its handlers and proved against the
 state machine: each method is one step of it.

 Script objects and activations of invokeOnce live in numbered tables, so that a
 version that was replaced keeps its own requests, as it does in its worker's
 handlers.
 */
module FunctionRuntime {
  import opened Wrappers
  import opened InvokeErrors
  import opened NestedTransactions
  import opened MutationScopes
  import opened RuntimeModel
  import opened RuntimeInvariants
  import Refusals
  import Outcomes
  import NestedCalls

  /** What an activation of invokeOnce keeps between its awaits. */
  datatype Activation = Activation(
    version: nat, reqId: nat, projectId: string, ref: Ref, depth: int,
    answer: Option<Answer>, closed: bool, result: Option<CallResult>)

  /** The activation, without the trace positions and origin the state machine records for it. */
  ghost function Keep(call: Call): Activation {
    Activation(call.version, call.reqId, call.projectId, call.ref, call.depth,
               call.answer, call.closedAt.Some?, call.result)
  }

  lemma CallerFacts<Op>(s: State<Op>, c: nat)
    requires Inv(s) && c < |s.calls|
    ensures
      var call := s.calls[c];
      && call.version < |s.versions|
      && call.id == s.versions[call.version].id && call.kind == s.versions[call.version].kind
      && StageOk(call)
  {
    assert CallOk(s, c);
  }

  lemma ScriptFacts<Op>(s: State<Op>)
    requires Inv(s)
    ensures forall id :: id in s.scripts ==> s.scripts[id] < |s.versions|
  {
  }

  lemma PendingFacts<Op>(s: State<Op>, v: nat, reqId: nat)
    requires Inv(s) && v < |s.versions| && reqId in s.versions[v].pending
    ensures IsPending(s, v, reqId) && s.calls[s.versions[v].pending[reqId]].reqId == reqId
  {
    assert PendingOk(s, v, reqId);
  }

  lemma KeepsReqId(call: Call)
    ensures Keep(call).reqId == call.reqId
  {
  }

  lemma KeepsStage(call: Call)
    ensures Keep(call).ref == call.ref && Keep(call).answer == call.answer && Keep(call).closed == call.closedAt.Some?
  {
  }

  lemma StartEffect<Op>(s: State<Op>, id: string)
    ensures Next(s, DeployStarts(id)) ==
      if |s.scripts| >= MAX_SCRIPTS && id !in s.scripts then s
      else s.(deploys := s.deploys[s.nextDeploy := id], nextDeploy := s.nextDeploy + 1)
  {
    hide RunXStep, StartCall, ScheduleStep, SettleStep, CrashStep, ResumeStep, SendEndStep, Sending;
  }

  lemma FinishEffect<Op>(s: State<Op>, token: nat, kind: Kind)
    requires token in s.deploys
    ensures
      var (after, id) := (Next(s, DeployReady(token, kind)), s.deploys[token]);
      && after.maxDepth == s.maxDepth && after.trace == s.trace && after.calls == s.calls && after.nextDeploy == s.nextDeploy
      && after.deploys == s.deploys - {token} && after.scripts == s.scripts[id := |s.versions|]
      && after.versions == s.versions + [Version(id, kind, 1, map[])]
      && after.metrics == s.metrics.(deploysTotal := s.metrics.deploysTotal + 1)
  {
    hide RunXStep, StartCall, ScheduleStep, SettleStep, CrashStep, ResumeStep, SendEndStep, Sending;
  }

  lemma AbandonEffect<Op>(s: State<Op>, token: nat)
    ensures Next(s, DeployFails(token)) == s.(deploys := s.deploys - {token})
  {
    hide RunXStep, StartCall, ScheduleStep, SettleStep, CrashStep, ResumeStep, SendEndStep, Sending;
  }

  lemma DeleteEffect<Op>(s: State<Op>, id: string)
    ensures Next(s, Deletes(id)) == s.(scripts := s.scripts - {id})
  {
    hide RunXStep, StartCall, ScheduleStep, SettleStep, CrashStep, ResumeStep, SendEndStep, Sending;
  }

  lemma ResumeIsStep<Op>(s: State<Op>, c: nat)
    requires c < |s.calls| && s.calls[c].answer.Some? && s.calls[c].closedAt.None?
    ensures Next(s, Resumes(c)) == ResumeStep(s, c)
  {
    hide RunXStep, StartCall, ScheduleStep, SettleStep, CrashStep, ResumeStep, SendEndStep, Sending;
  }

  /** What a continuation does to each table. */
  lemma ResumeEffect<Op>(s: State<Op>, c: nat)
    requires c < |s.calls| && s.calls[c].answer.Some? && s.calls[c].closedAt.None?
    ensures
      var (after, call, n) := (ResumeStep(s, c), s.calls[c], |s.trace|);
      && after.trace == s.trace + [Close(call.ref, if Succeeds(call.answer.value) then Succeeded else Failed)]
      && after == s.(trace := after.trace, calls := after.calls)
      && |after.calls| == |s.calls| && after.calls == s.calls[c := after.calls[c]]
      && Keep(after.calls[c]) == Keep(call).(closed := true,
           result := ToldAtClose(call.answer.value, LostBy(after.trace, n), SentBy(after.trace, n) != []))
      && Outcomes.HandedOver(after, c) == SentBy(after.trace, n)
  {
    hide SentBy, LostBy, Succeeds;
  }

  lemma ScheduleEffect<Op>(s: State<Op>, c: nat, op: Op)
    requires c < |s.calls|
    ensures Next(s, Schedules(c, op)) == ScheduleStep(s, c, op)
  {
    hide RunXStep, StartCall, ScheduleStep, SettleStep, CrashStep, ResumeStep, SendEndStep, Sending;
  }

  lemma CrashIsStep<Op>(s: State<Op>, v: nat, message: string)
    requires v < |s.versions|
    ensures Next(s, Crashes(v, message)) == CrashStep(s, v, CrashMessage(message))
  {
    hide RunXStep, StartCall, ScheduleStep, SettleStep, CrashStep, ResumeStep, SendEndStep, Sending, CrashMessage;
  }

  /** What a crash does to each table. */
  lemma CrashEffect<Op>(s: State<Op>, v: nat, error: string)
    requires v < |s.versions|
    ensures
      var (after, version) := (CrashStep(s, v, error), s.versions[v]);
      && after == s.(versions := s.versions[v := version.(pending := map[])], calls := after.calls,
                     scripts := s.scripts - {version.id})
      && |after.calls| == |s.calls|
      && forall c :: 0 <= c < |s.calls| ==>
        Keep(after.calls[c]) == (if c in version.pending.Values then Keep(s.calls[c]).(answer := Some(Rejected(error, WorkerCrash)))
                                 else Keep(s.calls[c]))
  {
  }

  class FunctionRuntime<Op> {
    const maxDepth: nat
    const mutationScopes: MutationScopes<Op>
    const refusals: Refusals.DeployRefusals
    var scripts: map<string, nat>
    var versions: seq<Version>
    var activations: seq<Activation>
    var deploys: map<nat, string>
    var nextDeploy: nat
    var metrics: Metrics
    ghost var model: State<Op>

    ghost predicate Valid()
      reads this, mutationScopes, refusals
    {
      && Inv(model)
      && mutationScopes.Valid()
      && Tables()
      && RefusalsApart()
    }

    /** The refusal list knows only functions of which no version runs. */
    ghost predicate RefusalsApart()
      reads this, refusals
    {
      && refusals.Valid() && refusals.capacity == MAX_SCRIPTS
      && forall id :: id in scripts ==> !Refusals.Knows(refusals.byId, id)
    }

    /** The tables are the state machine's. */
    ghost predicate Tables()
      reads this, mutationScopes
    {
      && model.maxDepth == maxDepth && model.trace == mutationScopes.trace
      && model.scripts == scripts && model.versions == versions
      && model.deploys == deploys && model.nextDeploy == nextDeploy && model.metrics == metrics
      && |activations| == |model.calls|
      && (forall c :: 0 <= c < |activations| ==> activations[c] == Keep(model.calls[c]))
    }

    /** Takes the state machine one step further. */
    ghost method Advance(e: Input<Op>)
      requires Inv(model)
      modifies this`model
      ensures model == Next(old(model), e) && Inv(model)
    {
      NextKeepsInv(model, e);
      model := Next(model, e);
    }

    constructor (maxDepth: nat, maxLine: nat)
      ensures Valid() && model == Init(maxDepth) && fresh(mutationScopes) && fresh(refusals) && refusals.run == []
    {
      this.maxDepth := maxDepth;
      mutationScopes := new MutationScopes();
      refusals := new Refusals.DeployRefusals(MAX_SCRIPTS, maxLine);
      scripts, versions, activations, deploys, nextDeploy := map[], [], [], map[], 0;
      metrics := Metrics(0, 0, 0, 0);
      model := Init(maxDepth);
      new;
      InitHolds<Op>(maxDepth);
    }

    // -------------------------------------------------------------- deploy and delete

    /** The part of deploy before its await: the cap is checked here and the deploy put in flight. */
    method StartDeploy(id: string) returns (token: Option<nat>)
      requires Valid()
      modifies this
      ensures Valid() && model == Next(old(model), DeployStarts(id))
      ensures token.None? <==> |old(scripts)| >= MAX_SCRIPTS && id !in old(scripts)
    {
      hide Inv, Next, Keep;
      StartEffect(model, id);
      Advance(DeployStarts(id));
      if |scripts| >= MAX_SCRIPTS && id !in scripts { return None; }
      token := Some(nextDeploy);
      deploys, nextDeploy := deploys[nextDeploy := id], nextDeploy + 1;
    }

    /** The part of deploy after its worker is ready: an earlier refusal is forgotten and the new version enters the
        table, in place of the one that ran. */
    method FinishDeploy(token: nat, kind: Kind)
      requires Valid() && token in deploys
      modifies this, refusals
      ensures Valid() && model == Next(old(model), DeployReady(token, kind))
      ensures refusals.run == old(refusals.run) + [Refusals.Clear(old(deploys)[token])]
    {
      hide Inv, Next, Keep;
      FinishEffect(model, token, kind);
      Advance(DeployReady(token, kind));
      var id := deploys[token];
      deploys := deploys - {token};
      var known := refusals.Clear(id);
      scripts := scripts[id := |versions|];
      versions := versions + [Version(id, kind, 1, map[])];
      metrics := metrics.(deploysTotal := metrics.deploysTotal + 1);
    }

    /** A deploy whose worker did not come up. When the code is to blame, the refusal goes to the log of the version
        that runs, and is returned for it, or else to the refusal list. */
    method AbandonDeploy(token: nat, blame: Option<string>, now: int) returns (logged: Option<Refusals.Entry>)
      requires Valid() && token in deploys
      modifies this, refusals
      ensures Valid() && model == Next(old(model), DeployFails(token))
      ensures logged.Some? <==> blame.Some? && old(deploys)[token] in scripts
      ensures logged.Some? ==> logged.value == refusals.NewEntry(blame.value, now)
      ensures refusals.run == old(refusals.run) +
        if blame.Some? && logged.None?
        then [Refusals.Record(Refusals.Refusal(old(deploys)[token], refusals.NewEntry(blame.value, now)))] else []
    {
      hide Inv, Next, Keep;
      AbandonEffect(model, token);
      Advance(DeployFails(token));
      var id := deploys[token];
      deploys := deploys - {token};
      if blame.None? { return None; }
      var entry := refusals.NewEntry(blame.value, now);
      if id in scripts { return Some(entry); }
      refusals.Record(id, entry);
      return None;
    }

    /** Takes a function out of the table, or else its refusal out of the list; its requests in flight are left to
        time out. */
    method Delete(id: string) returns (found: bool)
      requires Valid()
      modifies this, refusals
      ensures Valid() && model == Next(old(model), Deletes(id))
      ensures found <==> id in old(scripts) || Refusals.Knows(old(refusals.byId), id)
      ensures refusals.run == old(refusals.run) + [Refusals.Clear(id)]
    {
      hide Inv, Next, Keep;
      DeleteEffect(model, id);
      Advance(Deletes(id));
      var refused := refusals.Clear(id);
      found := id in scripts || refused;
      scripts := scripts - {id};
    }

    /** The kind of the version that runs under an id. */
    method GetKind(id: string) returns (kind: Kind)
      requires Valid()
      ensures kind == KindIn(scripts, versions, id)
    {
      kind := if id in scripts && scripts[id] < |versions| then versions[scripts[id]].kind else NoKind;
    }

    // -------------------------------------------------------------- starting invocations

    /** The synchronous part of invokeOnce: number the request, open its scope, wait for the worker. */
    method InvokeOnce(v: nat, inherited: Ref, bodyDepth: int, envelopeDepth: int, ghost origin: Option<Origin>, uuid: string)
      returns (c: nat)
      requires Tables() && mutationScopes.Valid() && v < |versions| && Unused(mutationScopes.trace, uuid)
      modifies this, mutationScopes
      ensures mutationScopes.Valid() && Tables()
      ensures model == StartCall(old(model), v, inherited, bodyDepth, envelopeDepth, origin, uuid)
      ensures c == |old(activations)| && |activations| == c + 1 && scripts == old(scripts)
    {
      hide Starts, NewRef, ProjectOf;
      model := StartCall(model, v, inherited, bodyDepth, envelopeDepth, origin, uuid);
      c := |activations|;
      var script := versions[v];
      var reqId := script.nextReqId;
      var projectId := ProjectOf(script.id);
      var ref := mutationScopes.Open(script.kind, inherited, projectId, uuid);
      var depth := if IsTyped(script.kind) then bodyDepth else if IsHttp(script.kind) then envelopeDepth else 0;
      versions := versions[v := script.(nextReqId := reqId + 1, pending := script.pending[reqId := c])];
      activations := activations + [Activation(v, reqId, projectId, ref, depth, None, false, None)];
    }

    /** A request from outside; None when no such function is deployed. */
    method Invoke(id: string, txnRef: Ref, bodyDepth: int, envelopeDepth: int, uuid: string) returns (c: Option<nat>)
      requires Valid() && Unused(mutationScopes.trace, uuid)
      modifies this, mutationScopes
      ensures Valid() && model == Next(old(model), Invokes(id, txnRef, bodyDepth, envelopeDepth, uuid))
      ensures c.Some? <==> id in old(scripts)
    {
      hide RunXStep, StartCall, ScheduleStep, SettleStep, CrashStep, ResumeStep, SendEndStep, Inv;
      NextKeepsInv(model, Invokes(id, txnRef, bodyDepth, envelopeDepth, uuid));
      ScriptFacts(model);
      if id !in scripts { return None; }
      var started := InvokeOnce(scripts[id], txnRef, bodyDepth, envelopeDepth, None, uuid);
      c := Some(started);
    }

    /** The checks of a nested ctx.run* call: the depth bound, the project, the kind matrix and the target. */
    method ResolveRunX(p: nat, moduleName: string) returns (found: Option<(nat, Ref, Kind)>)
      requires Valid() && p < |activations|
      ensures p < |model.calls|
      ensures found.Some? <==> RunXAllowed(model, p, moduleName)
      ensures found.Some? <==> NestedCalls.GoesThrough(model, p, moduleName)
      ensures found.Some? ==> found.value == RunXTarget(model, p, moduleName) && found.value.0 < |versions|
    {
      hide Inv, ProjectPart, NestedCalls.GoesThrough;
      CallerFacts(model, p);
      ScriptFacts(model);
      NestedCalls.CallGoesThroughIff(model, p, moduleName);
      var caller := activations[p];
      var script := versions[caller.version];
      if !(IsTyped(script.kind) || IsHttp(script.kind)) || moduleName == "" { return None; }
      if caller.depth + 1 > maxDepth { return None; }
      var project := ProjectPart(script.id);
      if project.None? { return None; }
      var target := project.value + "__" + moduleName;
      var callerKind := GetKind(script.id);
      var targetKind := GetKind(target);
      if callerKind.Query? && (targetKind.Mutation? || targetKind.Action?) { return None; }
      if target !in scripts { return None; }
      var inherited := if callerKind.Mutation? && targetKind.Mutation? then caller.ref else "";
      found := Some((scripts[target], inherited, callerKind));
    }

    /** A nested ctx.run* call; None when it is refused. */
    method DispatchRunX(p: nat, moduleName: string, uuid: string) returns (c: Option<nat>)
      requires Valid() && p < |activations| && Unused(mutationScopes.trace, uuid)
      modifies this, mutationScopes
      ensures Valid() && model == Next(old(model), RunX(p, moduleName, uuid))
      ensures c.Some? <==> RunXAllowed(old(model), p, moduleName)
      ensures p < |old(model).calls| && (c.Some? <==> NestedCalls.GoesThrough(old(model), p, moduleName))
    {
      hide StartCall, ScheduleStep, SettleStep, CrashStep, ResumeStep, SendEndStep, Inv, RunXAllowed, RunXTarget, NestedCalls.GoesThrough;
      NextKeepsInv(model, RunX(p, moduleName, uuid));
      var found := ResolveRunX(p, moduleName);
      if found.None? { return None; }
      var started := InvokeOnce(found.value.0, found.value.1, activations[p].depth + 1, 0, Some(Origin(p, found.value.2)), uuid);
      c := Some(started);
    }

    // -------------------------------------------------------------- scheduler calls

    /** What a ctx.scheduler call comes to: held by the mutation's scope, sent at once, or refused. */
    method DispatchScheduler(p: nat, op: Op) returns (result: Result<Option<(string, Op)>, string>)
      requires Valid() && p < |activations|
      modifies this, mutationScopes
      ensures Valid() && model == Next(old(model), Schedules(p, op))
      ensures result.Success? && result.value.Some? ==> model.direct == old(model).direct + [result.value.value]
      ensures result.Success? && result.value.None? ==>
        |model.trace| > 0 && HoldScope(model.trace, |model.trace| - 1).Some?
      ensures p < |old(model).calls|
      ensures
        var call := old(model).calls[p];
        result.Failure? <==>
          || !(IsTyped(call.kind) || IsHttp(call.kind))
          || ProjectPart(call.id).None?
          || (call.ref != "" && |model.trace| > 0 && HoldScope(model.trace, |model.trace| - 1).None?)
    {
      hide Next, Inv, ProjectPart, LiveScope;
      CallerFacts(model, p);
      ScheduleEffect(model, p, op);
      var caller := activations[p];
      var script := versions[caller.version];
      Advance(Schedules(p, op));
      if !(IsTyped(script.kind) || IsHttp(script.kind)) { return Failure("no ctx"); }
      var project := ProjectPart(script.id);
      if project.None? { return Failure("scheduler: caller runtime id missing project separator"); }
      if caller.ref == "" { return Success(Some((project.value, op))); }
      var held := mutationScopes.Hold(caller.ref, project.value, op);
      result := if held.Success? then Success(None) else Failure(held.error);
    }

    // -------------------------------------------------------------- settling

    /** Settles the promise pending on a version under a request id; false, and no change, if there is none. */
    method Settle(v: nat, reqId: nat, answer: Answer) returns (settled: bool)
      requires Tables() && Inv(model) && v < |versions|
      modifies this
      ensures Tables() && mutationScopes.trace == old(mutationScopes.trace) && scripts.Keys <= old(scripts).Keys
      ensures settled <==> IsPending(old(model), v, reqId)
      ensures model == SettleStep(old(model), v, reqId, answer)
    {
      hide Inv;
      ghost var before := model;
      settled := reqId in versions[v].pending;
      model := SettleStep(model, v, reqId, answer);
      if settled {
        PendingFacts(before, v, reqId);
        var c := versions[v].pending[reqId];
        versions := versions[v := versions[v].(pending := versions[v].pending - {reqId})];
        activations := activations[c := activations[c].(answer := Some(answer))];
        metrics := Counted(metrics, answer);
        if answer.Rejected? && answer.cause.Timeout? && versions[v].pending == map[] {
          scripts := scripts - {versions[v].id};
        }
      }
    }

    /** A worker's reply. */
    method OnReply(v: nat, reqId: nat, response: Response) returns (settled: bool)
      requires Valid() && v < |versions|
      modifies this
      ensures Valid() && model == Next(old(model), Replies(v, reqId, response))
      ensures settled <==> IsPending(old(model), v, reqId)
    {
      hide RunXStep, StartCall, ScheduleStep, SettleStep, CrashStep, ResumeStep, SendEndStep, Inv;
      NextKeepsInv(model, Replies(v, reqId, response));
      settled := Settle(v, reqId, Resolved(response));
    }

    /** A worker's report that a handler could not run. */
    method OnReportedError(v: nat, reqId: nat, error: string) returns (settled: bool)
      requires Valid() && v < |versions|
      modifies this
      ensures Valid() && model == Next(old(model), ReportsError(v, reqId, error))
      ensures settled <==> IsPending(old(model), v, reqId)
    {
      hide RunXStep, StartCall, ScheduleStep, SettleStep, CrashStep, ResumeStep, SendEndStep, Inv;
      NextKeepsInv(model, ReportsError(v, reqId, error));
      settled := Settle(v, reqId, Rejected(ReportText(error), WorkerError));
    }

    /** The timer of a request fires; one already settled has none. */
    method OnTimeout(v: nat, reqId: nat) returns (settled: bool)
      requires Valid() && v < |versions|
      modifies this
      ensures Valid() && model == Next(old(model), TimesOut(v, reqId))
      ensures settled <==> IsPending(old(model), v, reqId)
    {
      hide RunXStep, StartCall, ScheduleStep, SettleStep, CrashStep, ResumeStep, SendEndStep, Inv;
      NextKeepsInv(model, TimesOut(v, reqId));
      settled := Settle(v, reqId, Rejected("execution timeout (30s)", Timeout));
    }

    /** Rejects every request in flight on a version, one after the other. */
    method RejectPending(pending: map<nat, nat>, answer: Answer)
      requires forall r :: r in pending ==> pending[r] < |activations| && activations[pending[r]].reqId == r
      modifies this`activations
      ensures |activations| == |old(activations)|
      ensures forall c :: 0 <= c < |activations| ==>
        activations[c] == (if c in pending.Values then old(activations)[c].(answer := Some(answer)) else old(activations)[c])
    {
      var left := pending.Keys;
      while left != {}
        invariant left <= pending.Keys
        invariant |activations| == |old(activations)|
        invariant forall c :: 0 <= c < |activations| ==>
          activations[c] == (if c in pending.Values && old(activations)[c].reqId !in left
                             then old(activations)[c].(answer := Some(answer)) else old(activations)[c])
        decreases |left|
      {
        var reqId :| reqId in left;
        var c := pending[reqId];
        activations := activations[c := activations[c].(answer := Some(answer))];
        left := left - {reqId};
      }
    }

    /** A worker dies: its requests are rejected and its id leaves the table. */
    method OnCrash(v: nat, message: string)
      requires Valid() && v < |versions|
      modifies this
      ensures Valid() && model == Next(old(model), Crashes(v, message))
    {
      hide Next, CrashStep, Keep, Inv;
      ghost var before := model;
      var error := CrashMessage(message);
      NextKeepsInv(before, Crashes(v, message));
      CrashIsStep(before, v, message);
      CrashEffect(before, v, error);
      var pending := versions[v].pending;
      forall r | r in pending ensures pending[r] < |activations| && activations[pending[r]].reqId == r {
        PendingFacts(before, v, r);
        KeepsReqId(before.calls[pending[r]]);
      }
      RejectPending(pending, Rejected(error, WorkerCrash));
      versions := versions[v := versions[v].(pending := map[])];
      scripts := scripts - {versions[v].id};
      model := CrashStep(before, v, error);
    }

    // -------------------------------------------------------------- after the promise settled

    /** The continuation of invokeOnce: close the scope; the calls to send now, if any, are returned. */
    method Resume(c: nat) returns (send: seq<Op>)
      requires Valid() && c < |activations| && activations[c].answer.Some? && !activations[c].closed
      modifies this, mutationScopes
      ensures model.trace != [] && model.trace[|model.trace| - 1].Close?
      ensures send == Values(SentBy(model.trace, |model.trace| - 1)) == Values(Batch(model.trace))
      ensures c < |model.calls| && send == Values(Outcomes.HandedOver(model, c))
      ensures Valid() && model == Next(old(model), Resumes(c))
    {
      hide Next, Inv, ResumeStep, Keep, ToldAtClose, Outcomes.HandedOver, SentBy, LostBy, Succeeds, Starts, LiveScope, Batch;
      KeepsStage(model.calls[c]);
      ResumeIsStep(model, c);
      ResumeEffect(model, c);
      var activation := activations[c];
      var answer := activation.answer.value;
      Advance(Resumes(c));
      var closed := mutationScopes.Close(activation.ref, if Succeeds(answer) then Succeeded else Failed);
      send := closed.send;
      var result := ToldAtClose(answer, closed.lost, |closed.send| > 0);
      activations := activations[c := activation.(closed := true, result := result)];
    }

    /** The send of a succeeded mutation's calls resolved or was refused; the caller gets its response. */
    method OnSendEnd(c: nat, resolved: bool)
      requires Valid() && c < |activations| && activations[c].closed && activations[c].result.None?
      modifies this
      ensures Valid() && model == Next(old(model), SendEnds(c, resolved))
      ensures c < |activations| && activations[c].answer.Some? && activations[c].answer.value.Replied?
      ensures
        var response := activations[c].answer.value.response;
        activations[c].result == Some(if resolved then Returns(response) else Outcomes.NotRecorded(response))
    {
      hide RunXStep, StartCall, ScheduleStep, SettleStep, CrashStep, ResumeStep, Inv, IsFailure;
      CallerFacts(model, c);
      var activation := activations[c];
      Advance(SendEnds(c, resolved));
      var response := activation.answer.value.response;
      var result := Returns(if resolved then response else ScheduleFailed(response));
      activations := activations[c := activation.(result := Some(result))];
    }
  }
}
