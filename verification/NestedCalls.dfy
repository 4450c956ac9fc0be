/** Which nested calls go through, what each starts, and a run in which a mutation joins its caller's scope. */
module NestedCalls {
  import opened Wrappers
  import opened Text
  import opened InvokeErrors
  import opened NestedTransactions
  import opened MutationScopes
  import opened RuntimeModel
  import opened RuntimeInvariants
  import opened CallTrees
  import opened HttpCalls
  import opened EvictedMutations
  import opened Outcomes
  import Laws = NestedTransactionLaws

  // ---------------------------------------------------------------- which calls go through

  /** The script table holds an id, and the version it runs has one of these kinds. */
  ghost predicate RunsAs<Op>(s: State<Op>, id: string, kinds: set<Kind>) {
    id in s.scripts && s.scripts[id] < |s.versions| && s.versions[s.scripts[id]].kind in kinds
  }

  /** The id a nested call is sent to. */
  function TargetOf(callerId: string, moduleName: string): string
    requires ProjectPart(callerId).Some?
  {
    ProjectPart(callerId).value + "__" + moduleName
  }

  /** A caller with a ctx names a module, the depth bound leaves room, and the project of the caller's id has such a
      function deployed - unless the table runs the caller's id as a query and the target as a mutation or an action. */
  ghost predicate GoesThrough<Op>(s: State<Op>, p: nat, moduleName: string)
    requires p < |s.calls|
  {
    && s.calls[p].kind in {Query, Mutation, Action, HttpAction, HttpRouter}
    && moduleName != ""
    && s.calls[p].depth < s.maxDepth
    && ProjectPart(s.calls[p].id).Some?
    && TargetOf(s.calls[p].id, moduleName) in s.scripts
    && !(RunsAs(s, s.calls[p].id, {Query}) && RunsAs(s, TargetOf(s.calls[p].id, moduleName), {Mutation, Action}))
  }

  /** Whatever the kind of the caller, its nested call is allowed exactly when that is so. */
  lemma CallGoesThroughIff<Op>(s: State<Op>, p: nat, moduleName: string)
    requires Inv(s) && p < |s.calls|
    ensures RunXAllowed(s, p, moduleName) <==> GoesThrough(s, p, moduleName)
  {
    hide ProjectPart, StagesOk, ScopesOk, MetricsOk;
  }

  // ---------------------------------------------------------------- what a call starts

  /** One call more, of the version the table holds under an id, waiting and with its scope opened; nothing else moved. */
  ghost predicate StartsCall<Op>(s: State<Op>, after: State<Op>, id: string, inherited: Ref, depth: int, origin: Option<Origin>, uuid: string)
    requires id in s.scripts && s.scripts[id] < |s.versions|
  {
    var v := s.scripts[id];
    var version := s.versions[v];
    var event := Open(version.kind, inherited, ProjectOf(id), uuid);
    var ref := if version.kind.Mutation? || Parent(s.trace + [event], |s.trace|).Some? then NewRef(uuid) else "";
    after == s.(
      calls := s.calls + [Call(v, id, version.kind, version.nextReqId, ProjectOf(id), inherited, ref, |s.trace|, depth, origin, None, None, None)],
      versions := s.versions[v := version.(nextReqId := version.nextReqId + 1, pending := version.pending[version.nextReqId := |s.calls|])],
      trace := s.trace + [event])
  }

  /** A request from outside starts a call of the function it names, under the ref it brings; a typed function takes its
      depth from the body, an HTTP function from the envelope. */
  lemma InvokeStarts<Op>(s: State<Op>, id: string, txnRef: Ref, bodyDepth: int, envelopeDepth: int, uuid: string)
    requires Inv(s) && Unused(s.trace, uuid)
    ensures id !in s.scripts ==> Next(s, Invokes(id, txnRef, bodyDepth, envelopeDepth, uuid)) == s
    ensures id in s.scripts ==>
      && s.scripts[id] < |s.versions|
      && StartsCall(s, Next(s, Invokes(id, txnRef, bodyDepth, envelopeDepth, uuid)), id, txnRef,
                    if RunsAs(s, id, {Query, Mutation, Action}) then bodyDepth
                    else if RunsAs(s, id, {HttpAction, HttpRouter}) then envelopeDepth else 0,
                    None, uuid)
  {
    hide StagesOk, ScopesOk, MetricsOk, RunXStep, SettleStep, CrashStep, ResumeStep, SendEndStep, ScheduleStep, Sending, ProjectOf, NewRef, Parent, CrashMessage;
  }

  /** A nested call that goes through starts a call of its target one level down, or at depth 0 when that is no typed
      function, handing on the caller's ref when the table runs both as mutations; one that does not changes nothing. */
  lemma NestedCallStarts<Op>(s: State<Op>, p: nat, moduleName: string, uuid: string)
    requires Inv(s) && p < |s.calls| && Unused(s.trace, uuid)
    ensures !RunXAllowed(s, p, moduleName) ==> Next(s, RunX(p, moduleName, uuid)) == s
    ensures RunXAllowed(s, p, moduleName) ==>
      var (id, target) := (s.calls[p].id, TargetOf(s.calls[p].id, moduleName));
      && target in s.scripts && s.scripts[target] < |s.versions|
      && StartsCall(s, Next(s, RunX(p, moduleName, uuid)), target,
                    if RunsAs(s, id, {Mutation}) && RunsAs(s, target, {Mutation}) then s.calls[p].ref else "",
                    if RunsAs(s, target, {Query, Mutation, Action}) then s.calls[p].depth + 1 else 0,
                    Some(Origin(p, if id in s.scripts && s.scripts[id] < |s.versions| then s.versions[s.scripts[id]].kind else NoKind)), uuid)
  {
    hide StagesOk, ScopesOk, MetricsOk, SettleStep, CrashStep, ResumeStep, SendEndStep, ScheduleStep, Sending, ProjectOf, ProjectPart, NewRef, Parent,
      CrashMessage, MatrixAllows, WellFormed;
  }

  // ---------------------------------------------------------------- a run in which a mutation joins its caller's

  /** A mutation, one nested in it that holds a call and succeeds, and the end of the first. */
  ghost function JoinedTrace<Op>(project: string, op: Op, settled: NestedTransactions.Outcome): Trace<Op> {
    [Open(Mutation, "", project, "1"), Open(Mutation, NewRef("1"), project, "2"),
     Hold(NewRef("2"), project, op), Close(NewRef("2"), Succeeded), Close(NewRef("1"), settled)]
  }

  lemma RefsApart()
    ensures NewRef("1") != NewRef("2")
  {
    assert NewRef("1")[1] == '1' && NewRef("2")[1] == '2';
  }

  lemma JoinedScopes<Op>(t: Trace<Op>, project: string, op: Op, settled: NestedTransactions.Outcome)
    requires t == JoinedTrace(project, op, settled) && WellFormed(t)
    ensures |t| == 5 && Parent(t, 0).None? && Parent(t, 1) == Some(0)
    ensures LiveScope(t, 2, NewRef("2")) == Some(1) && LiveScope(t, 3, NewRef("2")) == Some(1) && LiveScope(t, 4, NewRef("1")) == Some(0)
    ensures EndOf(t, 0, 3).None?
  {
    RefsApart();
    hide WellFormed, NewRef;
    assert Parent(t, 0).None? && Starts(t, 0);
    assert LiveScope(t, 1, NewRef("1")) == Some(0);
    assert Parent(t, 1) == Some(0) && Starts(t, 1);
    assert LiveScope(t, 2, NewRef("2")) == Some(1);
    assert LiveScope(t, 2, NewRef("1")) == Some(0);
  }

  lemma JoinedIsHandedOver<Op>(t: Trace<Op>, project: string, op: Op, settled: NestedTransactions.Outcome)
    requires t == JoinedTrace(project, op, settled) && WellFormed(t)
    ensures |t| == 5 && HoldScope(t, 2) == Some(1) && SentBy(t, 4) == if settled.Succeeded? then [Held(2, op)] else []
  {
    JoinedScopes(t, project, op, settled);
    hide WellFormed, NewRef, LiveScope, Parent, EndOf;
    assert HoldScope(t, 2) == Some(1);
    assert Gathered(t, 1, 3) == [Held(2, op)];
    assert Gathered(t, 0, 3) == [];
    assert Gathered(t, 0, 4) == [Held(2, op)];
  }

  /** A mutation has called another, which runs in its scope. */
  lemma JoinedMutationRuns<Op(!new)>(maxDepth: nat, q: string, moduleName: string) returns (s: State<Op>)
    requires maxDepth > 0 && ProjectPart(q).Some? && moduleName != "" && q != TargetOf(q, moduleName)
    ensures Reaches(Init(maxDepth), s)
    ensures
      var m := TargetOf(q, moduleName);
      && |s.versions| == 2 && s.versions[0] == Version(m, Mutation, 2, map[1 := 1]) && s.versions[1] == Version(q, Mutation, 2, map[1 := 0])
      && |s.calls| == 2
      && s.calls[0] == Call(1, q, Mutation, 1, ProjectOf(q), "", NewRef("1"), 0, 0, None, None, None, None)
      && s.calls[1] == Call(0, m, Mutation, 1, ProjectOf(m), NewRef("1"), NewRef("2"), 1, 1, Some(Origin(0, Mutation)), None, None, None)
      && s.trace == [Open(Mutation, "", ProjectOf(q), "1"), Open(Mutation, NewRef("1"), ProjectOf(m), "2")]
  {
    hide Next, ProjectPart, ProjectOf, NewRef, Reaches, Inv, RunXAllowed;
    var m := TargetOf(q, moduleName);
    var s0 := Init<Op>(maxDepth);
    Deploys(s0, m, Mutation);
    var s1 := Next(Next(s0, DeployStarts(m)), DeployReady(s0.nextDeploy, Mutation));
    Deploys(s1, q, Mutation);
    ReachesTwice(s0, s1, DeployStarts(q), DeployReady(s1.nextDeploy, Mutation));
    var s2 := Next(Next(s1, DeployStarts(q)), DeployReady(s1.nextDeploy, Mutation));
    FirstCallStarts(s2, q, Mutation, 1, "1");
    ReachesNext(s0, s2, Invokes(q, "", 0, 0, "1"));
    var s3 := Next(s2, Invokes(q, "", 0, 0, "1"));
    ReachedTrees(maxDepth, s3);
    CallGoesThroughIff(s3, 0, moduleName);
    NestedCallStarts(s3, 0, moduleName, "2");
    ReachesNext(s0, s3, RunX(0, moduleName, "2"));
    s := Next(s3, RunX(0, moduleName, "2"));
  }

  /**
   A mutation calls another one, which schedules something and succeeds: its call goes out with the first one's close if
   that is answered with a success, and not at all if it is not.
   */
  lemma NestedMutationJoins<Op(!new)>(maxDepth: nat, q: string, moduleName: string, op: Op, response: Response) returns (s: State<Op>)
    requires maxDepth > 0 && ProjectPart(q).Some? && moduleName != "" && q != TargetOf(q, moduleName) && response.status != 0
    ensures Reaches(Init(maxDepth), s) && Inv(s) && OriginsOk(s) && |s.calls| == 2
    ensures s.calls[0].kind.Mutation? && s.calls[1].kind.Mutation? && s.calls[1].origin == Some(Origin(0, Mutation))
    ensures s.calls[1].inherited == s.calls[0].ref != "" && s.calls[0].answer == Some(Replied(response)) && s.calls[0].closedAt == Some(4)
    ensures |s.trace| == 5 && HoldScope(s.trace, 2) == Some(s.calls[1].openedAt) && Parent(s.trace, 1) == Some(s.calls[0].openedAt)
    ensures HandedOver(s, 0) == if Succeeds(Replied(response)) then [Held(2, op)] else []
  {
    hide Next, ProjectPart, ProjectOf, NewRef, Reaches, Inv, OriginsOk, IsFailure, SentBy;
    var m := TargetOf(q, moduleName);
    var init := Init<Op>(maxDepth);
    var s0 := JoinedMutationRuns<Op>(maxDepth, q, moduleName);
    TargetKeepsProject(q, moduleName);
    Scheduled(s0, 1, op);
    ReachesNext(init, s0, Schedules(1, op));
    var s1 := Next(s0, Schedules(1, op));
    Answered(s1, 0, 1, DONE);
    ReachesNext(init, s1, Replies(0, 1, DONE));
    var s2 := Next(s1, Replies(0, 1, DONE));
    Resumed(s2, 1);
    ReachesNext(init, s2, Resumes(1));
    var s3 := Next(s2, Resumes(1));
    Answered(s3, 1, 0, response);
    ReachesNext(init, s3, Replies(1, 1, response));
    var s4 := Next(s3, Replies(1, 1, response));
    Resumed(s4, 0);
    ReachesNext(init, s4, Resumes(0));
    s := Next(s4, Resumes(0));
    ReachedTrees(maxDepth, s);
    ProjectOfPart(m);
    TraceIsWellFormed(s);
    var settled := if Succeeds(Replied(response)) then Succeeded else Failed;
    SucceedsIff(Replied(DONE));
    assert s.trace == JoinedTrace(ProjectOf(q), op, settled);
    JoinedScopes(s.trace, ProjectOf(q), op, settled);
    JoinedIsHandedOver(s.trace, ProjectOf(q), op, settled);
  }
}
