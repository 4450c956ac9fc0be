/** What every step of the runtime keeps: its tables, its scopes and its counters agree. */
module RuntimeInvariants {
  import opened Wrappers
  import opened NestedTransactions
  import opened MutationScopes
  import opened RuntimeModel
  import Laws = NestedTransactionLaws

  // ---------------------------------------------------------------- tables

  /** A pending entry is below the next request id and leads to a call still waiting under that id. */
  ghost predicate PendingOk<Op>(s: State<Op>, v: nat, reqId: nat)
    requires v < |s.versions| && reqId in s.versions[v].pending
  {
    var c := s.versions[v].pending[reqId];
    && reqId < s.versions[v].nextReqId
    && c < |s.calls|
    && s.calls[c].version == v
    && s.calls[c].reqId == reqId
    && s.calls[c].answer.None?
  }

  /** A call belongs to its version; as long as its promise is not settled it is pending there. */
  ghost predicate CallOk<Op>(s: State<Op>, c: nat)
    requires c < |s.calls|
  {
    var call := s.calls[c];
    && call.version < |s.versions|
    && call.id == s.versions[call.version].id
    && call.kind == s.versions[call.version].kind
    && call.projectId == ProjectOf(call.id)
    && call.reqId < s.versions[call.version].nextReqId
    && (call.answer.None? ==>
          call.reqId in s.versions[call.version].pending && s.versions[call.version].pending[call.reqId] == c)
  }

  ghost predicate TablesOk<Op>(s: State<Op>) {
    && (forall id :: id in s.scripts ==> s.scripts[id] < |s.versions| && s.versions[s.scripts[id]].id == id)
    && (forall v, reqId :: 0 <= v < |s.versions| && reqId in s.versions[v].pending ==> PendingOk(s, v, reqId))
    && (forall c :: 0 <= c < |s.calls| ==> CallOk(s, c))
    && NumbersApart(s.calls)
  }

  /** Later calls on one version have higher request ids. */
  ghost predicate NumbersApart(calls: seq<Call>) {
    forall c, d :: 0 <= c < d < |calls| && calls[c].version == calls[d].version ==> calls[c].reqId < calls[d].reqId
  }

  lemma NumbersKept(calls: seq<Call>, after: seq<Call>)
    requires NumbersApart(calls) && |after| == |calls|
    requires forall c :: 0 <= c < |calls| ==> after[c].version == calls[c].version && after[c].reqId == calls[c].reqId
    ensures NumbersApart(after)
  {
  }

  lemma NumbersExtended(calls: seq<Call>, call: Call)
    requires NumbersApart(calls)
    requires forall c :: 0 <= c < |calls| && calls[c].version == call.version ==> calls[c].reqId < call.reqId
    ensures NumbersApart(calls + [call])
  {
  }

  /** The promise settles before the scope is closed, and the scope is closed before the caller hears. */
  ghost predicate StageOk(call: Call) {
    && (call.closedAt.Some? ==> call.answer.Some?)
    && (call.result.Some? ==> call.closedAt.Some?)
    && (call.closedAt.Some? && call.result.None? ==> Succeeds(call.answer.value))
  }

  ghost predicate StagesOk<Op>(s: State<Op>) {
    forall c :: 0 <= c < |s.calls| ==> StageOk(s.calls[c])
  }

  lemma StartKeepsTables<Op>(s: State<Op>, v: nat, inherited: Ref, bodyDepth: int, envelopeDepth: int,
                             origin: Option<Origin>, uuid: string)
    requires TablesOk(s) && StagesOk(s) && v < |s.versions|
    ensures
      var after := StartCall(s, v, inherited, bodyDepth, envelopeDepth, origin, uuid);
      TablesOk(after) && StagesOk(after)
  {
    hide NumbersApart, Starts, ProjectOf, NewRef;
    var after := StartCall(s, v, inherited, bodyDepth, envelopeDepth, origin, uuid);
    forall c | 0 <= c < |s.calls| && s.calls[c].version == v ensures s.calls[c].reqId < s.versions[v].nextReqId {
      assert CallOk(s, c);
    }
    NumbersExtended(s.calls, after.calls[|s.calls|]);
    forall c | 0 <= c < |after.calls| ensures CallOk(after, c) {
      if c < |s.calls| { assert CallOk(s, c); }
    }
    forall w, r | 0 <= w < |after.versions| && r in after.versions[w].pending ensures PendingOk(after, w, r) {
      if r in s.versions[w].pending { assert PendingOk(s, w, r); }
    }
  }

  lemma SettledCallOk<Op>(s: State<Op>, v: nat, reqId: nat, answer: Answer, c: nat)
    requires TablesOk(s) && IsPending(s, v, reqId) && c < |s.calls|
    ensures CallOk(SettleStep(s, v, reqId, answer), c)
  {
    hide ProjectOf, NumbersApart;
    assert CallOk(s, c) && PendingOk(s, v, reqId);
  }

  lemma SettledPendingOk<Op>(s: State<Op>, v: nat, reqId: nat, answer: Answer, w: nat, r: nat)
    requires TablesOk(s) && IsPending(s, v, reqId)
    requires w < |s.versions| && r in SettleStep(s, v, reqId, answer).versions[w].pending
    ensures PendingOk(SettleStep(s, v, reqId, answer), w, r)
  {
    hide ProjectOf, NumbersApart, CallOk;
    assert PendingOk(s, v, reqId) && PendingOk(s, w, r);
  }

  lemma SettledStageOk<Op>(s: State<Op>, v: nat, reqId: nat, answer: Answer, c: nat)
    requires TablesOk(s) && StagesOk(s) && IsPending(s, v, reqId) && c < |s.calls|
    ensures StageOk(SettleStep(s, v, reqId, answer).calls[c])
  {
    hide CallOk, NumbersApart;
    assert PendingOk(s, v, reqId) && StageOk(s.calls[c]);
  }

  lemma SettleKeepsTables<Op>(s: State<Op>, v: nat, reqId: nat, answer: Answer)
    requires TablesOk(s) && StagesOk(s)
    ensures TablesOk(SettleStep(s, v, reqId, answer)) && StagesOk(SettleStep(s, v, reqId, answer))
  {
    hide NumbersApart, CallOk, PendingOk, StageOk, ProjectOf;
    if IsPending(s, v, reqId) {
      var after := SettleStep(s, v, reqId, answer);
      NumbersKept(s.calls, after.calls);
      forall c | 0 <= c < |after.calls| ensures CallOk(after, c) && StageOk(after.calls[c]) {
        SettledCallOk(s, v, reqId, answer, c);
        SettledStageOk(s, v, reqId, answer, c);
      }
      forall w, r | 0 <= w < |after.versions| && r in after.versions[w].pending ensures PendingOk(after, w, r) {
        SettledPendingOk(s, v, reqId, answer, w, r);
      }
    }
  }

  lemma CrashedCallOk<Op>(s: State<Op>, v: nat, error: string, c: nat)
    requires TablesOk(s) && StagesOk(s) && v < |s.versions| && c < |s.calls|
    ensures CallOk(CrashStep(s, v, error), c) && StageOk(CrashStep(s, v, error).calls[c])
  {
    hide ProjectOf, NumbersApart;
    assert CallOk(s, c) && StageOk(s.calls[c]);
    if c in s.versions[v].pending.Values {
      var q :| q in s.versions[v].pending && s.versions[v].pending[q] == c;
      assert PendingOk(s, v, q);
    }
  }

  lemma CrashedPendingOk<Op>(s: State<Op>, v: nat, error: string, w: nat, r: nat)
    requires TablesOk(s) && v < |s.versions| && w < |s.versions| && r in CrashStep(s, v, error).versions[w].pending
    ensures PendingOk(CrashStep(s, v, error), w, r)
  {
    hide ProjectOf, NumbersApart, CallOk;
    assert PendingOk(s, w, r);
    assert forall q :: q in s.versions[v].pending ==> PendingOk(s, v, q);
    assert s.versions[w].pending[r] !in s.versions[v].pending.Values;
  }

  lemma CrashKeepsTables<Op>(s: State<Op>, v: nat, error: string)
    requires TablesOk(s) && StagesOk(s) && v < |s.versions|
    ensures TablesOk(CrashStep(s, v, error)) && StagesOk(CrashStep(s, v, error))
  {
    hide NumbersApart, CallOk, PendingOk, StageOk;
    var after := CrashStep(s, v, error);
    NumbersKept(s.calls, after.calls);
    forall c | 0 <= c < |after.calls| ensures CallOk(after, c) && StageOk(after.calls[c]) {
      CrashedCallOk(s, v, error, c);
    }
    forall w, r | 0 <= w < |after.versions| && r in after.versions[w].pending ensures PendingOk(after, w, r) {
      CrashedPendingOk(s, v, error, w, r);
    }
  }

  lemma DeployKeepsTables<Op>(s: State<Op>, token: nat, kind: Kind)
    requires TablesOk(s) && StagesOk(s)
    ensures TablesOk(Next(s, DeployReady(token, kind))) && StagesOk(Next(s, DeployReady(token, kind)))
  {
    var after := Next(s, DeployReady(token, kind));
    if token in s.deploys {
      forall c | 0 <= c < |after.calls| ensures CallOk(after, c) { assert CallOk(s, c); }
      forall w, r | 0 <= w < |after.versions| && r in after.versions[w].pending ensures PendingOk(after, w, r) {
        assert PendingOk(s, w, r);
      }
    }
  }

  lemma RunXKeepsTables<Op>(s: State<Op>, p: nat, moduleName: string, uuid: string)
    requires TablesOk(s) && StagesOk(s) && p < |s.calls|
    ensures TablesOk(RunXStep(s, p, moduleName, uuid)) && StagesOk(RunXStep(s, p, moduleName, uuid))
  {
    hide ProjectPart, KindIn, StartCall, TablesOk, StagesOk;
    if RunXAllowed(s, p, moduleName) {
      var (v, inherited, seenKind) := RunXTarget(s, p, moduleName);
      StartKeepsTables(s, v, inherited, s.calls[p].depth + 1, 0, Some(Origin(p, seenKind)), uuid);
    }
  }

  lemma ResumeKeepsTables<Op>(s: State<Op>, c: nat)
    requires TablesOk(s) && StagesOk(s) && c < |s.calls| && s.calls[c].answer.Some? && s.calls[c].closedAt.None?
    ensures TablesOk(ResumeStep(s, c)) && StagesOk(ResumeStep(s, c))
  {
    var after := ResumeStep(s, c);
    if after.calls[c].result.None? { SentOnlyOnSuccess(after.trace, |s.trace|); }
    assert StageOk(after.calls[c]);
    OneCallChanged(s, after, c);
  }

  lemma SendEndKeepsTables<Op>(s: State<Op>, c: nat, resolved: bool)
    requires TablesOk(s) && StagesOk(s) && c < |s.calls| && Sending(s.calls[c])
    ensures TablesOk(SendEndStep(s, c, resolved)) && StagesOk(SendEndStep(s, c, resolved))
  {
    OneCallChanged(s, SendEndStep(s, c, resolved), c);
  }

  /** Moving one call to its next stage keeps the numbering. */
  lemma OneCallChanged<Op>(s: State<Op>, after: State<Op>, c: nat)
    requires TablesOk(s) && StagesOk(s) && c < |s.calls| == |after.calls|
    requires after.versions == s.versions && after.scripts == s.scripts
    requires after.calls == s.calls[c := after.calls[c]] && StageOk(after.calls[c])
    requires after.calls[c] == s.calls[c].(closedAt := after.calls[c].closedAt, result := after.calls[c].result)
    ensures TablesOk(after) && StagesOk(after)
  {
    hide NumbersApart, ProjectOf;
    NumbersKept(s.calls, after.calls);
    forall d | 0 <= d < |after.calls| ensures CallOk(after, d) && StageOk(after.calls[d]) {
      assert CallOk(s, d) && StageOk(s.calls[d]);
    }
    forall w, r | 0 <= w < |after.versions| && r in after.versions[w].pending ensures PendingOk(after, w, r) {
      assert PendingOk(s, w, r);
    }
  }

  lemma SentOnlyOnSuccess<Op>(t: Trace<Op>, n: nat)
    requires n < |t| && t[n].Close? && SentBy(t, n) != []
    ensures t[n].settled.Succeeded?
  {
  }

  lemma NextKeepsTables<Op>(s: State<Op>, e: Input<Op>)
    requires TablesOk(s) && StagesOk(s)
    ensures TablesOk(Next(s, e)) && StagesOk(Next(s, e))
  {
    hide TablesOk, StagesOk, StartCall, RunXStep, SettleStep, CrashStep, ResumeStep, SendEndStep;
    match e
    case Invokes(id, txnRef, bodyDepth, envelopeDepth, uuid) =>
      if id in s.scripts && s.scripts[id] < |s.versions| { StartKeepsTables(s, s.scripts[id], txnRef, bodyDepth, envelopeDepth, None, uuid); }
    case RunX(p, moduleName, uuid) =>
      if p < |s.calls| { RunXKeepsTables(s, p, moduleName, uuid); }
    case Replies(v, reqId, response) => SettleKeepsTables(s, v, reqId, Resolved(response));
    case ReportsError(v, reqId, error) => SettleKeepsTables(s, v, reqId, Rejected(ReportText(error), WorkerError));
    case TimesOut(v, reqId) => SettleKeepsTables(s, v, reqId, Rejected("execution timeout (30s)", Timeout));
    case Crashes(v, message) => if v < |s.versions| { CrashKeepsTables(s, v, CrashMessage(message)); }
    case DeployReady(token, kind) => DeployKeepsTables(s, token, kind);
    case Resumes(c) =>
      if c < |s.calls| && s.calls[c].answer.Some? && s.calls[c].closedAt.None? { ResumeKeepsTables(s, c); }
    case SendEnds(c, resolved) =>
      if c < |s.calls| && Sending(s.calls[c]) { SendEndKeepsTables(s, c, resolved); }
    case DeployStarts(_) => SameTables(s, Next(s, e));
    case DeployFails(_) => SameTables(s, Next(s, e));
    case Deletes(_) => SameTables(s, Next(s, e));
    case Schedules(_, _) => SameTables(s, Next(s, e));
  }

  /** Forgetting scripts, and moving anything but versions and calls, keeps the tables. */
  lemma SameTables<Op>(s: State<Op>, after: State<Op>)
    requires TablesOk(s) && StagesOk(s)
    requires after.versions == s.versions && after.calls == s.calls
    requires forall id :: id in after.scripts ==> id in s.scripts && after.scripts[id] == s.scripts[id]
    ensures TablesOk(after) && StagesOk(after)
  {
    forall c | 0 <= c < |after.calls| ensures CallOk(after, c) { assert CallOk(s, c); }
    forall w, r | 0 <= w < |after.versions| && r in after.versions[w].pending ensures PendingOk(after, w, r) {
      assert PendingOk(s, w, r);
    }
  }

  // ---------------------------------------------------------------- scopes

  /** A call's two positions on the scope table: where it opened, and where, if its continuation has run,
      it closed. Its scope has ended exactly when the call has closed it. */
  ghost predicate ScopeOk<Op>(t: Trace<Op>, call: Call) {
    && call.openedAt < |t|
    && t[call.openedAt].Open?
    && t[call.openedAt] == Open(call.kind, call.inherited, call.projectId, t[call.openedAt].uuid)
    && call.ref == (if Starts(t, call.openedAt) then NewRef(t[call.openedAt].uuid) else "")
    && (call.ref != "" ==> EndOf(t, call.openedAt, |t|) == call.closedAt)
    && (call.closedAt.Some? ==>
          && call.answer.Some?
          && call.closedAt.value < |t|
          && t[call.closedAt.value] == Close(call.ref, if Succeeds(call.answer.value) then Succeeded else Failed))
  }

  ghost predicate ScopesOk<Op>(s: State<Op>) {
    && WellFormed(s.trace)
    && (forall c :: 0 <= c < |s.calls| ==> ScopeOk(s.trace, s.calls[c]))
    && (forall c, d :: 0 <= c < d < |s.calls| ==> s.calls[c].openedAt < s.calls[d].openedAt)
    && (forall i :: 0 <= i < |s.trace| && s.trace[i].Open? ==> IsOpening(s, i))
  }

  ghost predicate IsOpening<Op>(s: State<Op>, i: nat) {
    exists c :: 0 <= c < |s.calls| && s.calls[c].openedAt == i
  }

  /** One more event on the trace ends scope i only by closing its ref. */
  lemma EndOfGrown<Op>(t: Trace<Op>, e: Event<Op>, i: nat)
    requires i < |t| && t[i].Open?
    ensures EndOf(t + [e], i, |t| + 1) ==
      if EndOf(t, i, |t|).Some? then EndOf(t, i, |t|)
      else if e.Close? && e.ref == NewRef(t[i].uuid) then Some(|t|) else None
  {
    Laws.EndOfPrefix(t, t + [e], i, |t|);
  }

  /** A call keeps its place on a trace that grows by an event not closing its scope. */
  lemma ScopeOkGrown<Op>(t: Trace<Op>, e: Event<Op>, call: Call)
    requires ScopeOk(t, call) && !(e.Close? && e.ref == call.ref && call.ref != "")
    ensures ScopeOk(t + [e], call)
  {
    Laws.ParentOfPrefix(t, t + [e], call.openedAt);
    EndOfGrown(t, e, call.openedAt);
  }

  lemma OpenedOnTrace<Op>(s: State<Op>, c: nat)
    requires ScopesOk(s) && c < |s.calls|
    ensures s.calls[c].openedAt < |s.trace|
  {
    assert ScopeOk(s.trace, s.calls[c]);
  }

  /** A call just started stands on the trace as its opening says, with its scope not ended. */
  lemma NewCallScopeOk<Op>(t: Trace<Op>, call: Call, uuid: string)
    requires
      var grown := t + [Open(call.kind, call.inherited, call.projectId, uuid)];
      call.openedAt == |t| && call.closedAt.None? && call.ref == (if Starts(grown, |t|) then NewRef(uuid) else "")
    ensures ScopeOk(t + [Open(call.kind, call.inherited, call.projectId, uuid)], call)
  {
  }

  lemma StartKeepsScopes<Op>(s: State<Op>, v: nat, inherited: Ref, bodyDepth: int, envelopeDepth: int,
                             origin: Option<Origin>, uuid: string)
    requires ScopesOk(s) && v < |s.versions| && Unused(s.trace, uuid)
    ensures ScopesOk(StartCall(s, v, inherited, bodyDepth, envelopeDepth, origin, uuid))
  {
    hide ScopeOk, ProjectOf, NewRef;
    var after := StartCall(s, v, inherited, bodyDepth, envelopeDepth, origin, uuid);
    NewCallScopeOk(s.trace, after.calls[|s.calls|], uuid);
    forall c | 0 <= c < |after.calls| ensures ScopeOk(after.trace, after.calls[c]) {
      if c < |s.calls| { ScopeOkGrown(s.trace, after.trace[|s.trace|], s.calls[c]); }
    }
    forall c | 0 <= c < |s.calls| ensures s.calls[c].openedAt < |s.trace| {
      OpenedOnTrace(s, c);
    }
    OpeningsKept(s, after);
    assert after.calls[|s.calls|].openedAt == |s.trace|;
    assert IsOpening(after, |s.trace|);
  }

  /** Every opening on the old part of the trace still has its call. */
  lemma OpeningsKept<Op>(s: State<Op>, after: State<Op>)
    requires ScopesOk(s) && s.trace <= after.trace && |s.calls| <= |after.calls|
    requires forall c :: 0 <= c < |s.calls| ==> after.calls[c].openedAt == s.calls[c].openedAt
    ensures forall i :: 0 <= i < |s.trace| && s.trace[i].Open? ==> IsOpening(after, i)
  {
    forall i | 0 <= i < |s.trace| && s.trace[i].Open? ensures IsOpening(after, i) {
      assert IsOpening(s, i);
      var c :| 0 <= c < |s.calls| && s.calls[c].openedAt == i;
      assert after.calls[c].openedAt == i;
    }
  }

  /** Answers may arrive, and results be handed out, without touching the scopes. */
  lemma SameScopes<Op>(s: State<Op>, after: State<Op>)
    requires ScopesOk(s) && after.trace == s.trace && |after.calls| == |s.calls|
    requires forall c :: 0 <= c < |s.calls| ==>
      after.calls[c] == s.calls[c].(answer := after.calls[c].answer, result := after.calls[c].result)
      && (s.calls[c].closedAt.Some? ==> after.calls[c].answer == s.calls[c].answer)
    ensures ScopesOk(after)
  {
    forall c | 0 <= c < |after.calls| ensures ScopeOk(after.trace, after.calls[c]) {
      assert ScopeOk(s.trace, s.calls[c]);
    }
    OpeningsKept(s, after);
  }

  lemma HoldKeepsScopes<Op>(s: State<Op>, ref: Ref, project: string, op: Op)
    requires ScopesOk(s)
    ensures ScopesOk(s.(trace := s.trace + [Hold(ref, project, op)]))
  {
    var after := s.(trace := s.trace + [Hold(ref, project, op)]);
    forall c | 0 <= c < |after.calls| ensures ScopeOk(after.trace, after.calls[c]) {
      ScopeOkGrown(s.trace, Hold(ref, project, op), s.calls[c]);
    }
    OpeningsKept(s, after);
  }

  lemma ResumeKeepsScopes<Op>(s: State<Op>, c: nat)
    requires ScopesOk(s) && c < |s.calls| && s.calls[c].answer.Some? && s.calls[c].closedAt.None?
    ensures ScopesOk(ResumeStep(s, c))
  {
    hide LiveScope, Parent, Starts, EndOf, IsFailure;
    var after := ResumeStep(s, c);
    var e := after.trace[|s.trace|];
    assert after.trace == s.trace + [e];
    forall d | 0 <= d < |after.calls| ensures ScopeOk(after.trace, after.calls[d]) {
      assert ScopeOk(s.trace, s.calls[d]);
      if d == c {
        Laws.ParentOfPrefix(s.trace, after.trace, s.calls[c].openedAt);
        EndOfGrown(s.trace, e, s.calls[c].openedAt);
      } else {
        if s.calls[d].ref == s.calls[c].ref != "" {
          Laws.SameRef(s.trace, s.calls[d].openedAt, s.calls[c].openedAt);
          assert false;
        }
        ScopeOkGrown(s.trace, e, s.calls[d]);
      }
    }
    OpeningsKept(s, after);
  }

  lemma SettleKeepsScopes<Op>(s: State<Op>, v: nat, reqId: nat, answer: Answer)
    requires TablesOk(s) && StagesOk(s) && ScopesOk(s)
    ensures ScopesOk(SettleStep(s, v, reqId, answer))
  {
    if IsPending(s, v, reqId) {
      assert PendingOk(s, v, reqId);
      assert StageOk(s.calls[s.versions[v].pending[reqId]]);
      SameScopes(s, SettleStep(s, v, reqId, answer));
    }
  }

  lemma CrashKeepsScopes<Op>(s: State<Op>, v: nat, error: string)
    requires TablesOk(s) && StagesOk(s) && ScopesOk(s) && v < |s.versions|
    ensures ScopesOk(CrashStep(s, v, error))
  {
    forall c | 0 <= c < |s.calls| && c in s.versions[v].pending.Values ensures s.calls[c].closedAt.None? {
      var q :| q in s.versions[v].pending && s.versions[v].pending[q] == c;
      assert PendingOk(s, v, q) && StageOk(s.calls[c]);
    }
    SameScopes(s, CrashStep(s, v, error));
  }

  lemma ScheduleKeepsScopes<Op>(s: State<Op>, p: nat, op: Op)
    requires ScopesOk(s) && p < |s.calls|
    ensures ScopesOk(ScheduleStep(s, p, op))
  {
    var after := ScheduleStep(s, p, op);
    var project := ProjectPart(s.calls[p].id);
    if (IsTyped(s.calls[p].kind) || IsHttp(s.calls[p].kind)) && project.Some? && s.calls[p].ref != "" {
      HoldKeepsScopes(s, s.calls[p].ref, project.value, op);
    } else {
      SameScopes(s, after);
    }
  }

  lemma RunXKeepsScopes<Op>(s: State<Op>, p: nat, moduleName: string, uuid: string)
    requires ScopesOk(s) && p < |s.calls| && Unused(s.trace, uuid)
    ensures ScopesOk(RunXStep(s, p, moduleName, uuid))
  {
    hide ProjectPart, KindIn, StartCall;
    if RunXAllowed(s, p, moduleName) {
      var (v, inherited, seenKind) := RunXTarget(s, p, moduleName);
      StartKeepsScopes(s, v, inherited, s.calls[p].depth + 1, 0, Some(Origin(p, seenKind)), uuid);
    }
  }

  lemma NextKeepsScopes<Op>(s: State<Op>, e: Input<Op>)
    requires TablesOk(s) && StagesOk(s) && ScopesOk(s)
    ensures ScopesOk(Next(s, e))
  {
    hide TablesOk, StagesOk, ScopeOk, StartCall, RunXStep, ScheduleStep, SettleStep, CrashStep, ResumeStep;
    match e
    case Invokes(id, txnRef, bodyDepth, envelopeDepth, uuid) =>
      if id in s.scripts && s.scripts[id] < |s.versions| && Unused(s.trace, uuid) {
        StartKeepsScopes(s, s.scripts[id], txnRef, bodyDepth, envelopeDepth, None, uuid);
      }
    case RunX(p, moduleName, uuid) =>
      if p < |s.calls| && Unused(s.trace, uuid) { RunXKeepsScopes(s, p, moduleName, uuid); }
    case Schedules(p, op) => if p < |s.calls| { ScheduleKeepsScopes(s, p, op); }
    case Replies(v, reqId, response) => SettleKeepsScopes(s, v, reqId, Resolved(response));
    case ReportsError(v, reqId, error) => SettleKeepsScopes(s, v, reqId, Rejected(ReportText(error), WorkerError));
    case TimesOut(v, reqId) => SettleKeepsScopes(s, v, reqId, Rejected("execution timeout (30s)", Timeout));
    case Crashes(v, message) => if v < |s.versions| { CrashKeepsScopes(s, v, CrashMessage(message)); }
    case Resumes(c) =>
      if c < |s.calls| && s.calls[c].answer.Some? && s.calls[c].closedAt.None? { ResumeKeepsScopes(s, c); }
    case SendEnds(c, resolved) =>
      if c < |s.calls| && Sending(s.calls[c]) { SameScopes(s, SendEndStep(s, c, resolved)); }
    case DeployReady(_, _) => SameScopes(s, Next(s, e));
    case DeployStarts(_) => SameScopes(s, Next(s, e));
    case DeployFails(_) => SameScopes(s, Next(s, e));
    case Deletes(_) => SameScopes(s, Next(s, e));
  }

  // ---------------------------------------------------------------- counters

  datatype Counter = Total | Errors | Timeouts

  /** The calls each counter is meant to count: those a worker's message or a timeout settled; calls settled
      by a worker crash are in none. */
  predicate Counts(k: Counter, call: Call) {
    && call.answer.Some?
    && match call.answer.value
       case Replied(_) => k.Total?
       case Rejected(_, WorkerError) => k.Total? || k.Errors?
       case Rejected(_, Timeout) => true
       case Rejected(_, WorkerCrash) => false
  }

  ghost function Count(k: Counter, calls: seq<Call>): (n: nat)
    ensures n <= |calls|
  {
    if calls == [] then 0 else Count(k, calls[..|calls| - 1]) + if Counts(k, calls[|calls| - 1]) then 1 else 0
  }

  ghost predicate MetricsOk<Op>(s: State<Op>) {
    && s.metrics.invocationsTotal == Count(Total, s.calls)
    && s.metrics.invocationsError == Count(Errors, s.calls)
    && s.metrics.timeoutsTotal == Count(Timeouts, s.calls)
  }

  lemma {:induction false} CountSame(k: Counter, a: seq<Call>, b: seq<Call>)
    requires |a| == |b| && forall c :: 0 <= c < |a| ==> Counts(k, a[c]) == Counts(k, b[c])
    ensures Count(k, a) == Count(k, b)
    decreases |a|
  {
    if a != [] { CountSame(k, a[..|a| - 1], b[..|b| - 1]); }
  }

  lemma {:induction false} CountOneMore(k: Counter, calls: seq<Call>, c: nat, call: Call)
    requires c < |calls| && !Counts(k, calls[c])
    ensures Count(k, calls[c := call]) == Count(k, calls) + if Counts(k, call) then 1 else 0
    decreases |calls|
  {
    var last := |calls| - 1;
    if c < last {
      CountOneMore(k, calls[..last], c, call);
      assert calls[c := call][..last] == calls[..last][c := call];
    } else {
      assert calls[c := call][..last] == calls[..last];
    }
  }

  lemma {:induction false} CountsNest(calls: seq<Call>)
    ensures Count(Timeouts, calls) <= Count(Errors, calls) <= Count(Total, calls)
    decreases |calls|
  {
    if calls != [] { CountsNest(calls[..|calls| - 1]); }
  }

  /** Steps that leave the answers of the old calls, and start at most one call, leave the counts. */
  lemma SameMetrics<Op>(s: State<Op>, after: State<Op>)
    requires MetricsOk(s) && |s.calls| <= |after.calls| <= |s.calls| + 1
    requires forall c :: 0 <= c < |s.calls| ==> after.calls[c].answer == s.calls[c].answer
    requires |after.calls| > |s.calls| ==> after.calls[|s.calls|].answer.None?
    requires after.metrics == s.metrics.(deploysTotal := after.metrics.deploysTotal)
    ensures MetricsOk(after)
  {
    forall k: Counter ensures Count(k, after.calls) == Count(k, s.calls) {
      CountSame(k, s.calls, after.calls[..|s.calls|]);
      if |after.calls| == |s.calls| { assert after.calls[..|s.calls|] == after.calls; }
    }
  }

  lemma SettleKeepsMetrics<Op>(s: State<Op>, v: nat, reqId: nat, answer: Answer)
    requires TablesOk(s) && MetricsOk(s) && !(answer.Rejected? && answer.cause.WorkerCrash?)
    ensures MetricsOk(SettleStep(s, v, reqId, answer))
  {
    if IsPending(s, v, reqId) {
      assert PendingOk(s, v, reqId);
      var c := s.versions[v].pending[reqId];
      forall k: Counter { CountOneMore(k, s.calls, c, s.calls[c].(answer := Some(answer))); }
    }
  }

  lemma CrashKeepsMetrics<Op>(s: State<Op>, v: nat, error: string)
    requires TablesOk(s) && MetricsOk(s) && v < |s.versions|
    ensures MetricsOk(CrashStep(s, v, error))
  {
    var after := CrashStep(s, v, error);
    forall k: Counter ensures Count(k, after.calls) == Count(k, s.calls) {
      forall c | 0 <= c < |s.calls| ensures Counts(k, after.calls[c]) == Counts(k, s.calls[c]) {
        if c in s.versions[v].pending.Values {
          var q :| q in s.versions[v].pending && s.versions[v].pending[q] == c;
          assert PendingOk(s, v, q);
        }
      }
      CountSame(k, s.calls, after.calls);
    }
  }

  lemma NextKeepsMetrics<Op>(s: State<Op>, e: Input<Op>)
    requires TablesOk(s) && MetricsOk(s)
    ensures MetricsOk(Next(s, e))
  {
    hide TablesOk, MetricsOk, RunXAllowed, RunXTarget, ProjectPart, ProjectOf, SettleStep, CrashStep, SentBy, LostBy, Starts;
    match e
    case Replies(v, reqId, response) => SettleKeepsMetrics(s, v, reqId, Resolved(response));
    case ReportsError(v, reqId, error) => SettleKeepsMetrics(s, v, reqId, Rejected(ReportText(error), WorkerError));
    case TimesOut(v, reqId) => SettleKeepsMetrics(s, v, reqId, Rejected("execution timeout (30s)", Timeout));
    case Crashes(v, message) => if v < |s.versions| { CrashKeepsMetrics(s, v, CrashMessage(message)); }
    case Invokes(_, _, _, _, _) => SameMetrics(s, Next(s, e));
    case RunX(_, _, _) => SameMetrics(s, Next(s, e));
    case Schedules(_, _) => SameMetrics(s, Next(s, e));
    case Resumes(_) => SameMetrics(s, Next(s, e));
    case SendEnds(_, _) => SameMetrics(s, Next(s, e));
    case DeployReady(_, _) => SameMetrics(s, Next(s, e));
    case DeployStarts(_) => SameMetrics(s, Next(s, e));
    case DeployFails(_) => SameMetrics(s, Next(s, e));
    case Deletes(_) => SameMetrics(s, Next(s, e));
  }

  // ---------------------------------------------------------------- the invariant

  ghost predicate Inv<Op>(s: State<Op>) {
    TablesOk(s) && StagesOk(s) && ScopesOk(s) && MetricsOk(s)
  }

  lemma InitHolds<Op>(maxDepth: nat)
    ensures Inv(Init<Op>(maxDepth))
  {
  }

  lemma NextKeepsInv<Op>(s: State<Op>, e: Input<Op>)
    requires Inv(s)
    ensures Inv(Next(s, e))
  {
    hide TablesOk, StagesOk, ScopesOk, MetricsOk, Next;
    NextKeepsTables(s, e);
    NextKeepsScopes(s, e);
    NextKeepsMetrics(s, e);
  }

  /** The invariant holds after every run, from any state that has it. */
  lemma {:induction false} InvHolds<Op>(s: State<Op>, inputs: seq<Input<Op>>)
    requires Inv(s)
    ensures Inv(After(s, inputs))
    decreases |inputs|
  {
    if inputs != [] {
      hide Inv, Next;
      NextKeepsInv(s, inputs[0]);
      InvHolds(Next(s, inputs[0]), inputs[1..]);
    }
  }

  // ---------------------------------------------------------------- runs

  lemma {:induction false} AfterOneMore<Op>(s: State<Op>, inputs: seq<Input<Op>>, e: Input<Op>)
    ensures After(s, inputs + [e]) == Next(After(s, inputs), e)
    decreases |inputs|
  {
    hide Next;
    if inputs == [] {
      assert (inputs + [e])[1..] == [];
      assert After(Next(s, e), []) == Next(s, e);
    } else {
      assert (inputs + [e])[1..] == inputs[1..] + [e];
      AfterOneMore(Next(s, inputs[0]), inputs[1..], e);
    }
  }

  /** One run after another is the run of both. */
  lemma {:induction false} AfterBoth<Op>(s: State<Op>, first: seq<Input<Op>>, second: seq<Input<Op>>)
    ensures After(s, first + second) == After(After(s, first), second)
    decreases |first|
  {
    hide Next;
    if first == [] {
      assert first + second == second;
    } else {
      assert (first + second)[0] == first[0] && (first + second)[1..] == first[1..] + second;
      AfterBoth(Next(s, first[0]), first[1..], second);
    }
  }

  /** A run, cut at one of its steps. */
  lemma AfterCut<Op>(s: State<Op>, inputs: seq<Input<Op>>, m: nat)
    requires m < |inputs|
    ensures After(s, inputs[..m + 1]) == Next(After(s, inputs[..m]), inputs[m])
    ensures After(s, inputs) == After(After(s, inputs[..m + 1]), inputs[m + 1..])
  {
    hide Next, After;
    AfterOneMore(s, inputs[..m], inputs[m]);
    assert inputs[..m + 1] == inputs[..m] + [inputs[m]];
    AfterBoth(s, inputs[..m + 1], inputs[m + 1..]);
    assert inputs == inputs[..m + 1] + inputs[m + 1..];
  }
}
