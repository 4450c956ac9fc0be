/** What holds of every invocation over every run of the runtime. */
module RuntimeLaws {
  import opened Wrappers
  import opened InvokeErrors
  import opened NestedTransactions
  import opened MutationScopes
  import opened RuntimeModel
  import opened RuntimeInvariants
  import Laws = NestedTransactionLaws

  // ---------------------------------------------------------------- settling once

  /** One call carried over a step: nothing fixed at its start changes, and each of answer, close and result
      is written at most once. */
  ghost predicate Continues(before: Call, after: Call) {
    && after == before.(answer := after.answer, closedAt := after.closedAt, result := after.result)
    && (before.answer.Some? ==> after.answer == before.answer)
    && (before.closedAt.Some? ==> after.closedAt == before.closedAt)
    && (before.result.Some? ==> after.result == before.result)
  }

  lemma SettleContinues<Op>(s: State<Op>, v: nat, reqId: nat, answer: Answer, c: nat)
    requires TablesOk(s) && StagesOk(s) && c < |s.calls|
    ensures
      var after := SettleStep(s, v, reqId, answer);
      && c < |after.calls| == |s.calls| && Continues(s.calls[c], after.calls[c])
      && after.trace == s.trace && after.acknowledged == s.acknowledged
      && after.calls[c].closedAt == s.calls[c].closedAt && after.calls[c].result == s.calls[c].result
  {
    assert StageOk(s.calls[c]);
    if IsPending(s, v, reqId) { assert PendingOk(s, v, reqId); }
  }

  lemma CrashContinues<Op>(s: State<Op>, v: nat, error: string, c: nat)
    requires TablesOk(s) && StagesOk(s) && v < |s.versions| && c < |s.calls|
    ensures
      var after := CrashStep(s, v, error);
      && c < |after.calls| == |s.calls| && Continues(s.calls[c], after.calls[c])
      && after.trace == s.trace && after.acknowledged == s.acknowledged
      && after.calls[c].closedAt == s.calls[c].closedAt && after.calls[c].result == s.calls[c].result
  {
    assert StageOk(s.calls[c]);
    if c in s.versions[v].pending.Values {
      var q :| q in s.versions[v].pending && s.versions[v].pending[q] == c;
      assert PendingOk(s, v, q);
    }
  }

  lemma ClosingContinues<Op>(s: State<Op>, d: nat, resolved: bool, c: nat)
    requires StagesOk(s) && d < |s.calls| && c < |s.calls|
    ensures s.calls[d].answer.Some? && s.calls[d].closedAt.None? ==>
      |ResumeStep(s, d).calls| == |s.calls| && Continues(s.calls[c], ResumeStep(s, d).calls[c]) && s.trace <= ResumeStep(s, d).trace
    ensures Sending(s.calls[d]) ==>
      |SendEndStep(s, d, resolved).calls| == |s.calls| && Continues(s.calls[c], SendEndStep(s, d, resolved).calls[c]) && SendEndStep(s, d, resolved).trace == s.trace
  {
    hide SentBy, LostBy;
    assert StageOk(s.calls[d]);
  }

  /** Steps that only start something, or touch no call at all. */
  predicate OnlyStarts<Op>(e: Input<Op>) {
    e.DeployStarts? || e.DeployReady? || e.DeployFails? || e.Deletes? || e.Invokes? || e.RunX? || e.Schedules?
  }

  lemma StartKeepsCalls<Op>(s: State<Op>, v: nat, inherited: Ref, bodyDepth: int, envelopeDepth: int, origin: Option<Origin>, uuid: string)
    requires v < |s.versions|
    ensures
      var after := StartCall(s, v, inherited, bodyDepth, envelopeDepth, origin, uuid);
      s.calls <= after.calls && s.trace <= after.trace && after.acknowledged == s.acknowledged
  {
    hide Starts, NewRef, ProjectOf;
  }

  lemma StartsKeepCalls<Op>(s: State<Op>, e: Input<Op>)
    requires OnlyStarts(e)
    ensures s.calls <= Next(s, e).calls && s.trace <= Next(s, e).trace && Next(s, e).acknowledged == s.acknowledged
  {
    hide StartCall, RunXAllowed, RunXTarget, ProjectPart, SettleStep, CrashStep, ResumeStep, SendEndStep, Sending, Unused;
    match e
    case Invokes(id, txnRef, bodyDepth, envelopeDepth, uuid) =>
      if id in s.scripts && s.scripts[id] < |s.versions| {
        StartKeepsCalls(s, s.scripts[id], txnRef, bodyDepth, envelopeDepth, None, uuid);
      }
    case RunX(p, moduleName, uuid) => if p < |s.calls| { RunXKeepsCalls(s, p, moduleName, uuid); }
    case _ =>
  }

  lemma RunXKeepsCalls<Op>(s: State<Op>, p: nat, moduleName: string, uuid: string)
    requires p < |s.calls|
    ensures
      var after := RunXStep(s, p, moduleName, uuid);
      s.calls <= after.calls && s.trace <= after.trace && after.acknowledged == s.acknowledged
  {
    hide StartCall, ProjectPart, KindIn, MatrixAllows;
    if RunXAllowed(s, p, moduleName) {
      var (v, inherited, seenKind) := RunXTarget(s, p, moduleName);
      StartKeepsCalls(s, v, inherited, s.calls[p].depth + 1, 0, Some(Origin(p, seenKind)), uuid);
    }
  }

  lemma CallContinues<Op>(s: State<Op>, e: Input<Op>, c: nat)
    requires TablesOk(s) && StagesOk(s) && c < |s.calls|
    ensures c < |Next(s, e).calls| && Continues(s.calls[c], Next(s, e).calls[c])
    ensures s.trace <= Next(s, e).trace
  {
    hide TablesOk, StagesOk, RunXStep, ScheduleStep, StartCall, SettleStep, CrashStep, ResumeStep, SendEndStep, Unused;
    if OnlyStarts(e) {
      hide Next;
      StartsKeepCalls(s, e);
    } else {
      match e
      case Resumes(d) =>
        if d < |s.calls| && s.calls[d].answer.Some? && s.calls[d].closedAt.None? { ClosingContinues(s, d, true, c); }
      case SendEnds(d, resolved) => if d < |s.calls| && Sending(s.calls[d]) { ClosingContinues(s, d, resolved, c); }
      case Replies(v, reqId, response) => SettleContinues(s, v, reqId, Resolved(response), c);
      case ReportsError(v, reqId, error) => SettleContinues(s, v, reqId, Rejected(ReportText(error), WorkerError), c);
      case TimesOut(v, reqId) => SettleContinues(s, v, reqId, Rejected("execution timeout (30s)", Timeout), c);
      case Crashes(v, message) => if v < |s.versions| { CrashContinues(s, v, CrashMessage(message), c); }
      case _ =>
    }
  }

  /** Whatever races follow, a settled invocation keeps its one answer, its one close and its one result. */
  lemma {:induction false} InvocationSettlesOnce<Op>(s: State<Op>, inputs: seq<Input<Op>>, c: nat)
    requires Inv(s) && c < |s.calls|
    ensures c < |After(s, inputs).calls| && Continues(s.calls[c], After(s, inputs).calls[c])
    ensures s.trace <= After(s, inputs).trace
    decreases |inputs|
  {
    if inputs != [] {
      var t := Next(s, inputs[0]);
      assert TablesOk(s) && StagesOk(s);
      hide Inv, Next;
      CallContinues(s, inputs[0], c);
      NextKeepsInv(s, inputs[0]);
      InvocationSettlesOnce(t, inputs[1..], c);
    }
  }

  lemma NumbersTellApart(calls: seq<Call>, c: nat, d: nat)
    requires NumbersApart(calls) && c < |calls| && d < |calls|
    requires calls[c].version == calls[d].version && calls[c].reqId == calls[d].reqId
    ensures c == d
  {
  }

  lemma SettledIsNotPending<Op>(s: State<Op>, c: nat)
    requires TablesOk(s) && c < |s.calls| && s.calls[c].answer.Some?
    ensures !IsPending(s, s.calls[c].version, s.calls[c].reqId)
  {
    var (v, reqId) := (s.calls[c].version, s.calls[c].reqId);
    if IsPending(s, v, reqId) {
      assert PendingOk(s, v, reqId);
      NumbersTellApart(s.calls, s.versions[v].pending[reqId], c);
    }
  }

  /** A reply, an error report or a timeout that comes after its invocation settled changes nothing at all. */
  lemma LateMessagesChangeNothing<Op>(s: State<Op>, c: nat, response: Response, error: string)
    requires Inv(s) && c < |s.calls| && s.calls[c].answer.Some?
    ensures Next(s, Replies(s.calls[c].version, s.calls[c].reqId, response)) == s
    ensures Next(s, ReportsError(s.calls[c].version, s.calls[c].reqId, error)) == s
    ensures Next(s, TimesOut(s.calls[c].version, s.calls[c].reqId)) == s
  {
    SettledIsNotPending(s, c);
  }

  /** While its invocation waits, any of the three settles it, and with its own answer. */
  lemma WaitingCallIsSettledBy<Op>(s: State<Op>, c: nat, answer: Answer)
    requires Inv(s) && c < |s.calls| && s.calls[c].answer.None?
    ensures
      var after := SettleStep(s, s.calls[c].version, s.calls[c].reqId, answer);
      && after.calls == s.calls[c := s.calls[c].(answer := Some(answer))]
      && s.calls[c].reqId < s.versions[s.calls[c].version].nextReqId
      && s.calls[c].reqId !in after.versions[s.calls[c].version].pending
  {
    assert CallOk(s, c);
  }

  // ---------------------------------------------------------------- counters

  /** Each counter is the number of calls settled its way, so they nest. */
  lemma CountersAreExact<Op>(maxDepth: nat, inputs: seq<Input<Op>>)
    ensures
      var s := After(Init<Op>(maxDepth), inputs);
      && s.metrics.invocationsTotal == Count(Total, s.calls)
      && s.metrics.invocationsError == Count(Errors, s.calls)
      && s.metrics.timeoutsTotal == Count(Timeouts, s.calls)
      && s.metrics.timeoutsTotal <= s.metrics.invocationsError <= s.metrics.invocationsTotal <= |s.calls|
  {
    InitHolds<Op>(maxDepth);
    InvHolds(Init<Op>(maxDepth), inputs);
    CountsNest(After(Init<Op>(maxDepth), inputs).calls);
  }

  // ---------------------------------------------------------------- scopes and invocations

  /** The scope table holds a ref exactly when one invocation that has not closed its scope carries it. */
  lemma ScopesAreInvocationsInFlight<Op>(s: State<Op>, ref: Ref)
    requires Inv(s)
    ensures ref in Run(s.trace, |s.trace|).scopes <==>
      exists c :: 0 <= c < |s.calls| && s.calls[c].ref == ref && ref != "" && s.calls[c].closedAt.None?
  {
    var n := |s.trace|;
    Laws.TableTracks(s.trace, n, ref);
    if ref in Run(s.trace, n).scopes {
      var i := LiveScope(s.trace, n, ref).value;
      Laws.LiveScopeExact(s.trace, n, ref, i);
      assert IsOpening(s, i);
      var c :| 0 <= c < |s.calls| && s.calls[c].openedAt == i;
      assert ScopeOk(s.trace, s.calls[c]);
    }
    if c :| 0 <= c < |s.calls| && s.calls[c].ref == ref && ref != "" && s.calls[c].closedAt.None? {
      assert ScopeOk(s.trace, s.calls[c]);
      Laws.InTableExact(s.trace, n, s.calls[c].openedAt);
    }
  }

  /** No two invocations share a scope. */
  lemma InvocationsHaveTheirOwnScope<Op>(s: State<Op>, c: nat, d: nat)
    requires Inv(s) && c < |s.calls| && d < |s.calls| && s.calls[c].ref == s.calls[d].ref != ""
    ensures c == d
  {
    assert ScopeOk(s.trace, s.calls[c]) && ScopeOk(s.trace, s.calls[d]);
    Laws.SameRef(s.trace, s.calls[c].openedAt, s.calls[d].openedAt);
  }

  /** With no invocation in flight, no scope is left behind. */
  lemma NoScopeOutlivesItsInvocations<Op>(s: State<Op>)
    requires Inv(s) && forall c :: 0 <= c < |s.calls| ==> s.calls[c].closedAt.Some?
    ensures Run(s.trace, |s.trace|).scopes == map[]
  {
    forall ref ensures ref !in Run(s.trace, |s.trace|).scopes {
      ScopesAreInvocationsInFlight(s, ref);
    }
  }

  // ---------------------------------------------------------------- what the caller is told

  lemma ProjectIsPart<Op>(s: State<Op>, c: nat)
    requires Inv(s) && c < |s.calls| && ProjectPart(s.calls[c].id).Some?
    ensures s.calls[c].projectId == ProjectPart(s.calls[c].id).value
  {
    hide ProjectPart, StagesOk, ScopesOk, MetricsOk;
    assert CallOk(s, c);
  }

  lemma SentByOfPrefix<Op>(t: Trace<Op>, u: Trace<Op>, n: nat)
    requires t <= u && n < |t| && t[n].Close?
    ensures SentBy(u, n) == SentBy(t, n) && LostBy(u, n) == LostBy(t, n)
  {
    Laws.LiveScopeOfPrefix(t, u, n, t[n].ref);
    if LiveScope(t, n, t[n].ref).Some? {
      var i := LiveScope(t, n, t[n].ref).value;
      Laws.ParentOfPrefix(t, u, i);
      Laws.GatheredOfPrefix(t, u, i, n);
      if Parent(t, i).Some? { Laws.EndOfPrefix(t, u, Parent(t, i).value, n); }
    }
  }

  /** What a call that closed its scope has told its caller, or is about to. */
  ghost predicate ResultOk<Op>(t: Trace<Op>, acknowledged: set<nat>, call: Call) {
    call.closedAt.Some? ==>
      var n := call.closedAt.value;
      && n < |t| && t[n].Close? && call.answer.Some?
      && match call.answer.value
         case Rejected(error, _) => call.result == Some(Throws(error))
         case Replied(res) =>
           if LostBy(t, n) then call.result == Some(Returns(ScheduleFailed(res)))
           else if SentBy(t, n) == [] then call.result == Some(Returns(res))
           else if n in acknowledged then call.result == Some(Returns(res))
           else call.result.None? || call.result == Some(Returns(ScheduleFailed(res)))
  }

  ghost predicate ResultsOk<Op>(s: State<Op>) {
    && (forall c :: 0 <= c < |s.calls| ==> ResultOk(s.trace, s.acknowledged, s.calls[c]))
    && (forall n :: n in s.acknowledged ==> n < |s.trace|)
  }

  lemma ResultOkGrown<Op>(t: Trace<Op>, u: Trace<Op>, acknowledged: set<nat>, more: set<nat>, call: Call)
    requires t <= u && ResultOk(t, acknowledged, call)
    requires call.closedAt.Some? ==> (call.closedAt.value in more <==> call.closedAt.value in acknowledged)
    ensures ResultOk(u, more, call)
  {
    if call.closedAt.Some? { SentByOfPrefix(t, u, call.closedAt.value); }
  }

  /** Only its own continuation and its own send move a call past the settling of its promise. */
  lemma OthersLeaveTheEnd<Op>(s: State<Op>, e: Input<Op>, c: nat)
    requires TablesOk(s) && StagesOk(s) && c < |s.calls|
    requires e != Resumes(c) && !(e.SendEnds? && e.call == c)
    ensures c < |Next(s, e).calls|
    ensures Next(s, e).calls[c].closedAt == s.calls[c].closedAt && Next(s, e).calls[c].result == s.calls[c].result
    ensures !e.SendEnds? ==> Next(s, e).acknowledged == s.acknowledged
  {
    hide TablesOk, StagesOk, RunXStep, ScheduleStep, StartCall, SettleStep, CrashStep, SentBy, LostBy, Starts, Unused;
    if OnlyStarts(e) {
      hide Next;
      StartsKeepCalls(s, e);
    } else {
      match e
      case Replies(v, reqId, response) => SettleContinues(s, v, reqId, Resolved(response), c);
      case ReportsError(v, reqId, error) => SettleContinues(s, v, reqId, Rejected(ReportText(error), WorkerError), c);
      case TimesOut(v, reqId) => SettleContinues(s, v, reqId, Rejected("execution timeout (30s)", Timeout), c);
      case Crashes(v, message) => if v < |s.versions| { CrashContinues(s, v, CrashMessage(message), c); }
      case _ =>
    }
  }

  lemma SendEndEffect<Op>(s: State<Op>, d: nat, resolved: bool)
    ensures
      var (after, sends) := (Next(s, SendEnds(d, resolved)), d < |s.calls| && Sending(s.calls[d]));
      after.trace == s.trace &&
      after.acknowledged == if sends && resolved then s.acknowledged + {s.calls[d].closedAt.value} else s.acknowledged
  {
    hide RunXStep, StartCall, ScheduleStep, SettleStep, CrashStep, ResumeStep;
  }

  /** A call on its way to provisioning closed a scope, and no other call closed it. */
  lemma SendersHaveTheirClose<Op>(s: State<Op>, d: nat, c: nat)
    requires Inv(s) && ResultsOk(s) && d < |s.calls| && c < |s.calls| && Sending(s.calls[d])
    ensures s.calls[d].closedAt.Some? && s.calls[d].closedAt.value < |s.trace|
    ensures s.calls[c].closedAt == s.calls[d].closedAt ==> c == d
  {
    hide TablesOk, StagesOk, MetricsOk;
    assert ScopeOk(s.trace, s.calls[d]) && ScopeOk(s.trace, s.calls[c]);
    if s.calls[c].closedAt == s.calls[d].closedAt { OneScopeOneCall(s, c, d); }
  }

  lemma OneScopeOneCall<Op>(s: State<Op>, c: nat, d: nat)
    requires Inv(s) && ResultsOk(s) && d < |s.calls| && c < |s.calls| && Sending(s.calls[d])
    requires s.calls[c].ref == s.calls[d].ref
    ensures c == d
  {
    SendersHaveScopes(s, d);
    InvocationsHaveTheirOwnScope(s, c, d);
  }

  lemma SendersHaveScopes<Op>(s: State<Op>, d: nat)
    requires Inv(s) && ResultsOk(s) && d < |s.calls| && Sending(s.calls[d])
    ensures s.calls[d].ref != ""
  {
    assert ScopeOk(s.trace, s.calls[d]) && ResultOk(s.trace, s.acknowledged, s.calls[d]);
    hide Gathered, Parent;
    assert LiveScope(s.trace, s.calls[d].closedAt.value, s.calls[d].ref).Some?;
  }

  /** No step but the end of a call's own send acknowledges its batch. */
  lemma OthersLeaveTheBatch<Op>(s: State<Op>, e: Input<Op>, c: nat)
    requires Inv(s) && ResultsOk(s) && c < |s.calls| && s.calls[c].closedAt.Some?
    requires !(e.SendEnds? && e.call == c)
    ensures s.calls[c].closedAt.value in Next(s, e).acknowledged <==> s.calls[c].closedAt.value in s.acknowledged
  {
    hide Next, Inv, ResultsOk, Sending;
    if e.SendEnds? {
      SendEndEffect(s, e.call, e.resolved);
      if e.call < |s.calls| && Sending(s.calls[e.call]) { SendersHaveTheirClose(s, e.call, c); }
    } else if e != Resumes(c) {
      SuccessParts(s, c);
      OthersLeaveTheEnd(s, e, c);
    } else {
      ResumeAcknowledgesNothing(s, c);
    }
  }

  lemma ResumeAcknowledgesNothing<Op>(s: State<Op>, c: nat)
    ensures Next(s, Resumes(c)).acknowledged == s.acknowledged && s.trace <= Next(s, Resumes(c)).trace
  {
    hide RunXStep, StartCall, ScheduleStep, SettleStep, CrashStep, SendEndStep, SentBy, LostBy, Succeeds;
  }

  lemma NextKeepsResults<Op>(s: State<Op>, e: Input<Op>)
    requires Inv(s) && ResultsOk(s)
    ensures ResultsOk(Next(s, e))
  {
    hide Next, Inv, ResultOk, TablesOk, StagesOk, ScopesOk, StageOk, Sending;
    var after := Next(s, e);
    forall c | 0 <= c < |after.calls| ensures ResultOk(after.trace, after.acknowledged, after.calls[c]) {
      if c >= |s.calls| {
        NewCallsAreOpen(s, e, c);
        OpenResultOk(after.trace, after.acknowledged, after.calls[c]);
      } else if e == Resumes(c) {
        SuccessParts(s, c);
        ResumedResultOk(s, c);
      } else if e.SendEnds? && e.call == c {
        SuccessParts(s, c);
        SentResultOk(s, c, e.resolved);
      } else {
        SuccessParts(s, c);
        CallContinues(s, e, c);
        OthersLeaveTheEnd(s, e, c);
        if s.calls[c].closedAt.Some? { OthersLeaveTheBatch(s, e, c); }
        UnmovedResultOk(s.trace, after.trace, s.acknowledged, after.acknowledged, s.calls[c], after.calls[c]);
      }
    }
    AcknowledgedOnTrace(s, e);
  }

  lemma AcknowledgedOnTrace<Op>(s: State<Op>, e: Input<Op>)
    requires Inv(s) && ResultsOk(s)
    ensures forall n :: n in Next(s, e).acknowledged ==> n < |Next(s, e).trace|
  {
    hide Next, Inv, ResultOk, Sending;
    if e.SendEnds? {
      SendEndEffect(s, e.call, e.resolved);
      if e.call < |s.calls| && Sending(s.calls[e.call]) { SendersHaveTheirClose(s, e.call, e.call); }
    } else if e.Resumes? {
      ResumeAcknowledgesNothing(s, e.call);
    } else {
      MessagesAcknowledgeNothing(s, e);
    }
  }

  lemma MessagesAcknowledgeNothing<Op>(s: State<Op>, e: Input<Op>)
    requires !e.SendEnds? && !e.Resumes?
    ensures Next(s, e).acknowledged == s.acknowledged && s.trace <= Next(s, e).trace
  {
    hide RunXStep, ScheduleStep, StartCall, CrashMessage, Unused;
    if OnlyStarts(e) {
      hide Next;
      StartsKeepCalls(s, e);
    }
  }

  lemma OpenResultOk<Op>(t: Trace<Op>, acknowledged: set<nat>, call: Call)
    requires call.closedAt.None?
    ensures ResultOk(t, acknowledged, call)
  {
  }

  lemma UnmovedResultOk<Op>(t: Trace<Op>, u: Trace<Op>, acknowledged: set<nat>, more: set<nat>, before: Call, after: Call)
    requires t <= u && ResultOk(t, acknowledged, before)
    requires before.closedAt.Some? ==> (before.closedAt.value in more <==> before.closedAt.value in acknowledged)
    requires Continues(before, after) && after.closedAt == before.closedAt && after.result == before.result
    requires StageOk(before)
    ensures ResultOk(u, more, after)
  {
    if before.closedAt.Some? { ResultOkGrown(t, u, acknowledged, more, before); }
  }

  lemma NewCallsAreOpen<Op>(s: State<Op>, e: Input<Op>, c: nat)
    requires |s.calls| <= c < |Next(s, e).calls|
    ensures Next(s, e).calls[c].closedAt.None?
  {
    hide RunXAllowed, RunXTarget, ProjectPart, ProjectOf, KindIn, Starts, NewRef, SentBy, LostBy;
  }

  lemma ResumedResultOk<Op>(s: State<Op>, c: nat)
    requires c < |s.calls| && StageOk(s.calls[c]) && ResultOk(s.trace, s.acknowledged, s.calls[c])
    requires forall n :: n in s.acknowledged ==> n < |s.trace|
    ensures
      var after := Next(s, Resumes(c));
      ResultOk(after.trace, after.acknowledged, after.calls[c])
  {
  }

  lemma SentResultOk<Op>(s: State<Op>, c: nat, resolved: bool)
    requires c < |s.calls| && StageOk(s.calls[c]) && ResultOk(s.trace, s.acknowledged, s.calls[c])
    ensures
      var after := Next(s, SendEnds(c, resolved));
      ResultOk(after.trace, after.acknowledged, after.calls[c])
  {
  }

  lemma {:induction false} ResultsHold<Op>(s: State<Op>, inputs: seq<Input<Op>>)
    requires Inv(s) && ResultsOk(s)
    ensures Inv(After(s, inputs)) && ResultsOk(After(s, inputs))
    decreases |inputs|
  {
    if inputs != [] {
      hide Inv, Next, ResultsOk;
      NextKeepsInv(s, inputs[0]);
      NextKeepsResults(s, inputs[0]);
      ResultsHold(Next(s, inputs[0]), inputs[1..]);
    }
  }

  /** Every state a run reaches. */
  lemma ReachableStates<Op>(maxDepth: nat, inputs: seq<Input<Op>>)
    ensures Inv(After(Init<Op>(maxDepth), inputs)) && ResultsOk(After(Init<Op>(maxDepth), inputs))
  {
    InitHolds<Op>(maxDepth);
    ResultsHold(Init<Op>(maxDepth), inputs);
  }

  /** The close of a call's scope, as the trace has it. */
  lemma CloseOnTrace<Op>(s: State<Op>, c: nat)
    requires Inv(s) && c < |s.calls| && s.calls[c].ref != "" && s.calls[c].closedAt.Some?
    ensures
      var (i, n) := (s.calls[c].openedAt, s.calls[c].closedAt.value);
      && i < n < |s.trace| && Starts(s.trace, i)
      && EndOf(s.trace, i, |s.trace|) == Some(n) && EndOf(s.trace, i, n).None?
      && s.trace[n].Close? && LiveScope(s.trace, n, s.trace[n].ref) == Some(i)
      && s.calls[c].answer.Some?
      && (s.trace[n].settled.Succeeded? <==> Succeeds(s.calls[c].answer.value))
  {
    assert ScopeOk(s.trace, s.calls[c]);
    var (i, n) := (s.calls[c].openedAt, s.calls[c].closedAt.value);
    Laws.EndIsFirst(s.trace, i, |s.trace|);
    Laws.LiveScopeExact(s.trace, n, s.trace[n].ref, i);
  }

  /** A successful result stands for a succeeded handler whose close lost nothing and whose batch, if it had
      one, was acknowledged. */
  lemma SuccessfulResult<Op>(t: Trace<Op>, acknowledged: set<nat>, call: Call, response: Response)
    requires StageOk(call) && ResultOk(t, acknowledged, call)
    requires call.result == Some(Returns(response)) && !IsFailure(response)
    ensures call.closedAt.Some? && call.answer.Some? && Succeeds(call.answer.value)
    ensures call.closedAt.value < |t| && t[call.closedAt.value].Close?
    ensures !LostBy(t, call.closedAt.value)
    ensures SentBy(t, call.closedAt.value) == [] || call.closedAt.value in acknowledged
  {
    hide SentBy, LostBy;
  }

  lemma HeldBeforeItsEnd<Op>(t: Trace<Op>, i: nat, k: nat, n: nat)
    requires WellFormed(t) && k < |t| && HoldScope(t, k) == Some(i) && i < n < |t| && EndOf(t, i, |t|) == Some(n)
    ensures k < n
  {
    hide WellFormed, HoldScope, EndOf, LiveScope, Starts, Parent;
    Laws.HoldScopeIsLive(t, k);
    if n <= k { Laws.EndIsFirst(t, i, |t|); Laws.EndStays(t, i, n + 1, k + 1); assert false; }
  }

  /** The scheduler call made at event k stands in call c's scope as it closes: c's own, or merged from a nested
      mutation that succeeded, at any depth. */
  ghost predicate Carries<Op>(s: State<Op>, c: nat, k: nat)
    requires c < |s.calls|
  {
    var (i, end) := (s.calls[c].openedAt, s.calls[c].closedAt);
    && end.Some? && k < end.value <= |s.trace|
    && HoldScope(s.trace, k).Some?
    && FateOf(s.trace, HoldScope(s.trace, k).value, end.value) == Live(i)
  }

  /** What a scope carries as it closes is what it gathered: its own calls and the blocks of its children. */
  lemma CarriesIffGathered<Op>(s: State<Op>, c: nat, k: nat)
    requires Inv(s) && c < |s.calls| && s.calls[c].ref != "" && s.calls[c].closedAt.Some? && k < |s.trace|
    ensures s.calls[c].closedAt.value <= |s.trace| && s.calls[c].openedAt < |s.trace| && s.trace[s.calls[c].openedAt].Open?
    ensures Carries(s, c, k) <==>
      s.trace[k].Hold? && Held(k, s.trace[k].op) in Gathered(s.trace, s.calls[c].openedAt, s.calls[c].closedAt.value)
  {
    CloseOnTrace(s, c);
    var (t, i, n) := (s.trace, s.calls[c].openedAt, s.calls[c].closedAt.value);
    assert WellFormed(t);
    hide Inv, HoldScope, Gathered, FateOf, LiveScope, EndOf, WellFormed, Place;
    Laws.LiveScopeGathers(t, n, i);
    if Carries(s, c, k) { Laws.PlacesAreComplete(t, n, k); }
    if t[k].Hold? && Held(k, t[k].op) in Gathered(t, i, n) {
      var m :| 0 <= m < |Gathered(t, i, n)| && Gathered(t, i, n)[m] == Held(k, t[k].op);
      Laws.PlacesAreSound(t, n, Live(i), m);
    }
  }

  /** A call's own scheduler calls are among those its scope carries. */
  lemma OwnCallsAreCarried<Op>(s: State<Op>, c: nat, k: nat)
    requires Inv(s) && c < |s.calls| && k < |s.trace| && s.calls[c].closedAt.Some?
    requires HoldScope(s.trace, k) == Some(s.calls[c].openedAt)
    ensures Carries(s, c, k)
  {
    var (t, i, n) := (s.trace, s.calls[c].openedAt, s.calls[c].closedAt.value);
    Laws.HoldScopeIsLive(t, k);
    assert s.calls[c].ref != "" by { assert ScopeOk(t, s.calls[c]); }
    CloseOnTrace(s, c);
    hide Inv, LiveScope, HoldScope;
    HeldBeforeItsEnd(t, i, k, n);
    Laws.FateOfOpen(t, i, n);
  }

  /** The close of a live scope passes on what it carries. */
  lemma CarriedFate<Op>(t: Trace<Op>, k: nat, i: nat, n: nat)
    requires WellFormed(t) && k < n < |t| && HoldScope(t, k).Some? && FateOf(t, HoldScope(t, k).value, n) == Live(i)
    requires i < |t| && t[i].Open? && t[n].Close? && t[n].settled.Succeeded? && LiveScope(t, n, t[n].ref) == Some(i)
    ensures Starts(t, i) && i < n
    ensures FateOf(t, HoldScope(t, k).value, n + 1) ==
      match Parent(t, i)
      case None => Sent(n)
      case Some(p) => if EndOf(t, p, n).None? then Live(p) else Lost(n)
  {
    hide HoldScope, FateOf, WellFormed;
    Laws.HeldStep(t, k, n);
    Laws.LiveScopeExact(t, n, t[n].ref, i);
    Laws.FateAtClose(t, i, n);
  }

  /**
   A mutation is answered with a 2xx response carrying no error only if each scheduler call its scope carried,
   its own or one merged from a nested mutation, was in a batch whose send provisioning acknowledged, or passed
   to a parent that was live at the close.
   */
  lemma SuccessMeansRecorded<Op>(s: State<Op>, c: nat, k: nat, response: Response)
    requires Inv(s) && ResultsOk(s) && c < |s.calls| && Carries(s, c, k)
    requires s.calls[c].result == Some(Returns(response)) && !IsFailure(response)
    ensures s.calls[c].openedAt < |s.trace| && s.trace[s.calls[c].openedAt].Open? && s.calls[c].closedAt.value < |s.trace|
    ensures
      var n := s.calls[c].closedAt.value;
      match Parent(s.trace, s.calls[c].openedAt)
      case None =>
        && n in s.acknowledged
        && n in Run(s.trace, |s.trace|).sent
        && Held(k, s.trace[k].op) in Run(s.trace, |s.trace|).sent[n]
      case Some(p) => EndOf(s.trace, p, n).None? && FateOf(s.trace, HoldScope(s.trace, k).value, n + 1) == Live(p)
  {
    hide Inv, ResultsOk, StageOk, ScopeOk, Carries, LiveScope, HoldScope, Gathered, FateOf, Run, Parent, EndOf, WellFormed, IsFailure,
      SentBy, LostBy, Starts, ProjectOf;
    SuccessFacts(s, c, k, response);
    var (t, i, n) := (s.trace, s.calls[c].openedAt, s.calls[c].closedAt.value);
    CarriedFate(t, k, i, n);
    if Parent(t, i).None? {
      RootIsSent(t, s.acknowledged, s.calls[c], k, response);
    } else {
      NotLost(t, i, n);
    }
  }

  /** What a success that carried a call says of the close. */
  lemma SuccessFacts<Op>(s: State<Op>, c: nat, k: nat, response: Response)
    requires Inv(s) && ResultsOk(s) && c < |s.calls| && Carries(s, c, k)
    requires s.calls[c].result == Some(Returns(response)) && !IsFailure(response)
    ensures WellFormed(s.trace)
    ensures s.calls[c].openedAt < |s.trace| && s.trace[s.calls[c].openedAt].Open?
    ensures s.calls[c].closedAt.Some? && k < s.calls[c].closedAt.value < |s.trace| && s.trace[s.calls[c].closedAt.value].Close?
    ensures
      var (t, i, n) := (s.trace, s.calls[c].openedAt, s.calls[c].closedAt.value);
      && LiveScope(t, n, t[n].ref) == Some(i) && t[n].settled.Succeeded?
      && !LostBy(t, n) && (SentBy(t, n) == [] || n in s.acknowledged)
      && t[k].Hold? && Held(k, t[k].op) in Gathered(t, i, n)
      && HoldScope(t, k).Some? && FateOf(t, HoldScope(t, k).value, n) == Live(i)
  {
    SuccessParts(s, c);
    SuccessfulResult(s.trace, s.acknowledged, s.calls[c], response);
    hide Inv, ResultsOk, ResultOk, StageOk, LiveScope, HoldScope, Gathered, FateOf, EndOf, Starts, WellFormed, SentBy, LostBy;
    CarriedScopeIsOwned(s, c, k);
    CloseOnTrace(s, c);
    CarriesIffGathered(s, c, k);
  }

  lemma SuccessParts<Op>(s: State<Op>, c: nat)
    requires Inv(s) && ResultsOk(s) && c < |s.calls|
    ensures StageOk(s.calls[c]) && ResultOk(s.trace, s.acknowledged, s.calls[c]) && WellFormed(s.trace)
    ensures TablesOk(s) && StagesOk(s)
  {
  }

  /** A close that lost nothing although it had calls found the parent live. */
  lemma NotLost<Op>(t: Trace<Op>, i: nat, n: nat)
    requires n < |t| && t[n].Close? && LiveScope(t, n, t[n].ref) == Some(i) && t[n].settled.Succeeded?
    requires Parent(t, i).Some? && !LostBy(t, n) && Gathered(t, i, n) != []
    ensures EndOf(t, Parent(t, i).value, n).None?
  {
    hide LiveScope, Parent, Gathered, EndOf;
  }

  /** A root that carries a call sends it, and a success is told once that send is acknowledged. */
  lemma RootIsSent<Op>(t: Trace<Op>, acknowledged: set<nat>, call: Call, k: nat, response: Response)
    requires WellFormed(t) && call.openedAt < |t| && t[call.openedAt].Open? && Parent(t, call.openedAt).None?
    requires call.closedAt.Some? && k < call.closedAt.value < |t| && t[call.closedAt.value].Close?
    requires
      var (i, n) := (call.openedAt, call.closedAt.value);
      && LiveScope(t, n, t[n].ref) == Some(i) && t[n].settled.Succeeded?
      && (SentBy(t, n) == [] || n in acknowledged)
      && t[k].Hold? && Held(k, t[k].op) in Gathered(t, i, n)
      && HoldScope(t, k).Some? && FateOf(t, HoldScope(t, k).value, n + 1) == Sent(n)
    ensures
      var n := call.closedAt.value;
      n in acknowledged && n in Run(t, |t|).sent && Held(k, t[k].op) in Run(t, |t|).sent[n]
  {
    hide WellFormed, LiveScope, HoldScope, Gathered, FateOf, Run, Parent, Starts;
    var n := call.closedAt.value;
    assert n in acknowledged;
    Laws.HoldScopeIsLive(t, k);
    Laws.FateIsFinal(t, HoldScope(t, k).value, n + 1, |t|);
    Laws.PlacesAreComplete(t, |t|, k);
  }

  lemma CarriedScopeIsOwned<Op>(s: State<Op>, c: nat, k: nat)
    requires Inv(s) && c < |s.calls| && Carries(s, c, k)
    ensures s.calls[c].ref != ""
  {
    var n := s.calls[c].closedAt.value;
    Laws.HoldScopeIsLive(s.trace, k);
    Laws.FateIsLive(s.trace, HoldScope(s.trace, k).value, n);
    assert ScopeOk(s.trace, s.calls[c]);
  }

  /**
   If a call timed out or crashed, or was answered with no 2xx status or with an error text, nothing its scope ever carried is sent: neither its own
   calls nor those merged from children that succeeded, now or after any further run.
   */
  lemma FailureSendsNothing<Op>(s: State<Op>, inputs: seq<Input<Op>>, c: nat, k: nat, n: nat)
    requires Inv(s) && c < |s.calls| && s.calls[c].answer.Some? && s.calls[c].ref != ""
    requires
      var answer := s.calls[c].answer.value;
      || answer.Rejected?
      || answer.response.status < 200 || answer.response.status >= 300
      || (answer.response.body.Json? && answer.response.body.error.Some?)
    requires
      var t := After(s, inputs).trace;
      k < |t| && HoldScope(t, k).Some? && s.calls[c].openedAt in Ancestry(t, HoldScope(t, k).value)
    ensures
      var after := After(s, inputs);
      n in Run(after.trace, |after.trace|).sent ==> Held(k, after.trace[k].op) !in Run(after.trace, |after.trace|).sent[n]
  {
    var after := After(s, inputs);
    var t := after.trace;
    InvocationSettlesOnce(s, inputs, c);
    InvHolds(s, inputs);
    assert ScopeOk(t, after.calls[c]);
    if Commits(t, s.calls[c].openedAt, |t|) {
      CloseOnTrace(after, c);
      assert false;
    }
    Laws.SentIffAncestryCommits(t, |t|, k);
  }

  /** The batch a call's close sends goes out under that call's project, and holds that project's calls only. */
  lemma BatchGoesToItsProject<Op>(s: State<Op>, c: nat, m: nat)
    requires Inv(s) && c < |s.calls| && s.calls[c].ref != "" && s.calls[c].closedAt.Some?
    requires s.calls[c].closedAt.value in Run(s.trace, |s.trace|).sent
    requires m < |Run(s.trace, |s.trace|).sent[s.calls[c].closedAt.value]|
    ensures
      var h := Run(s.trace, |s.trace|).sent[s.calls[c].closedAt.value][m];
      && h.at < s.calls[c].closedAt.value
      && s.trace[h.at].Hold? && s.trace[h.at].projectId == s.calls[c].projectId == ProjectOf(s.calls[c].id)
  {
    assert ScopeOk(s.trace, s.calls[c]) && CallOk(s, c);
    CloseOnTrace(s, c);
    Laws.BatchIsOneProject(s.trace, |s.trace|, s.calls[c].closedAt.value, m);
  }

  /** Every batch ever sent was sent by the close of one call. */
  lemma BatchHasItsCall<Op>(s: State<Op>, n: nat)
    requires Inv(s) && n in Run(s.trace, |s.trace|).sent
    ensures exists c :: 0 <= c < |s.calls| && s.calls[c].closedAt == Some(n) && s.calls[c].answer.Some? && Succeeds(s.calls[c].answer.value)
  {
    Laws.BatchIsGathered(s.trace, |s.trace|, n);
    var i := LiveScope(s.trace, n, s.trace[n].ref).value;
    Laws.LiveScopeExact(s.trace, n, s.trace[n].ref, i);
    assert IsOpening(s, i);
    var c :| 0 <= c < |s.calls| && s.calls[c].openedAt == i;
    assert ScopeOk(s.trace, s.calls[c]);
    EndOfAt(s.trace, i, n);
  }

  lemma EndOfAt<Op>(t: Trace<Op>, i: nat, n: nat)
    requires i < n < |t| && t[i].Open? && EndOf(t, i, n).None? && t[n].Close? && t[n].ref == NewRef(t[i].uuid)
    ensures EndOf(t, i, |t|) == Some(n)
  {
    Laws.EndStays(t, i, n + 1, |t|);
  }
}
