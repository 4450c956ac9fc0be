/** What an eviction costs a running mutation: its nested mutations are cut off from it. */
module EvictedMutations {
  import opened Wrappers
  import opened InvokeErrors
  import opened NestedTransactions
  import opened MutationScopes
  import opened RuntimeModel
  import opened RuntimeInvariants
  import opened CallTrees
  import opened HttpCalls
  import Laws = NestedTransactionLaws

  // ---------------------------------------------------------------- single steps, in full

  /** An evicted caller's nested call is handed no ref. */
  lemma CutOffCall<Op>(s: State<Op>, p: nat, moduleName: string, uuid: string)
    requires p < |s.calls| && s.calls[p].kind.Mutation? && s.calls[p].depth == 0 < s.maxDepth && Unused(s.trace, uuid)
    requires moduleName != "" && ProjectPart(s.calls[p].id).Some? && s.calls[p].id !in s.scripts
    requires
      var m := ProjectPart(s.calls[p].id).value + "__" + moduleName;
      && m in s.scripts && s.scripts[m] < |s.versions|
      && s.versions[s.scripts[m]] == Version(m, Mutation, 1, map[])
    ensures
      var t := Next(s, RunX(p, moduleName, uuid));
      var m := ProjectPart(s.calls[p].id).value + "__" + moduleName;
      var v := s.scripts[m];
      && t.scripts == s.scripts && t.versions == s.versions[v := Version(m, Mutation, 2, map[1 := |s.calls|])]
      && t.calls == s.calls + [Call(v, m, Mutation, 1, ProjectOf(m), "", NewRef(uuid), |s.trace|, 1, Some(Origin(p, NoKind)),
                                    None, None, None)]
      && t.trace == s.trace + [Open(Mutation, "", ProjectOf(m), uuid)]
  {
    hide SettleStep, CrashStep, ResumeStep, SendEndStep, ScheduleStep, Sending, ProjectOf, ProjectPart, NewRef;
    var m := ProjectPart(s.calls[p].id).value + "__" + moduleName;
    var trace := s.trace + [Open(Mutation, "", ProjectOf(m), uuid)];
    assert Parent(trace, |s.trace|).None? && Starts(trace, |s.trace|);
  }

  lemma Scheduled<Op>(s: State<Op>, c: nat, op: Op)
    requires c < |s.calls| && s.calls[c].kind.Mutation? && s.calls[c].ref != "" && ProjectPart(s.calls[c].id).Some?
    ensures
      Next(s, Schedules(c, op)) == s.(trace := s.trace + [Hold(s.calls[c].ref, ProjectPart(s.calls[c].id).value, op)])
  {
    hide RunXStep, StartCall, SettleStep, CrashStep, ResumeStep, SendEndStep, Sending, ProjectPart;
  }

  lemma Answered<Op>(s: State<Op>, v: nat, c: nat, response: Response)
    requires v < |s.versions| && c < |s.calls| && s.versions[v].pending == map[1 := c] && response.status != 0
    ensures
      var t := Next(s, Replies(v, 1, response));
      && t.scripts == s.scripts && t.trace == s.trace
      && t.versions == s.versions[v := s.versions[v].(pending := map[])]
      && t.calls == s.calls[c := s.calls[c].(answer := Some(Replied(response)))]
  {
    hide RunXStep, StartCall, CrashStep, ResumeStep, SendEndStep, ScheduleStep, Sending;
    assert s.versions[v].pending - {1} == map[];
  }

  lemma Resumed<Op>(s: State<Op>, c: nat)
    requires c < |s.calls| && s.calls[c].answer.Some? && s.calls[c].closedAt.None?
    ensures
      var t := Next(s, Resumes(c));
      && t.scripts == s.scripts && t.versions == s.versions && |t.calls| == |s.calls|
      && t.calls == s.calls[c := s.calls[c].(closedAt := Some(|s.trace|), result := t.calls[c].result)]
      && t.trace == s.trace + [Close(s.calls[c].ref, if Succeeds(s.calls[c].answer.value) then Succeeded else Failed)]
  {
    hide RunXStep, StartCall, SettleStep, CrashStep, SendEndStep, ScheduleStep, Sending, SentBy, LostBy, Succeeds;
  }

  // ---------------------------------------------------------------- the trace of the run

  /** Two mutations of one function open; a third, nested but without a ref, holds a call and succeeds; then the second,
      which called it, fails. */
  ghost function CutOffTrace<Op>(project: string, inner: string, held: string, op: Op): Trace<Op> {
    [Open(Mutation, "", project, "1"), Open(Mutation, "", project, "2"), Open(Mutation, "", inner, "3"),
     Hold(NewRef("3"), held, op), Close(NewRef("3"), Succeeded), Close(NewRef("2"), Failed)]
  }

  lemma CutOffCallsAreSent<Op>(t: Trace<Op>, project: string, inner: string, op: Op)
    requires t == CutOffTrace(project, inner, inner, op) && WellFormed(t)
    ensures |t| == 6 && Parent(t, 2).None? && HoldScope(t, 3) == Some(2)
    ensures 4 in Run(t, 6).sent && Held(3, op) in Run(t, 6).sent[4]
  {
    hide Run, Place, WellFormed;
    assert Parent(t, 2).None? && Starts(t, 2);
    hide Starts;
    assert EndOf(t, 2, 3).None?;
    Laws.LiveScopeExact(t, 3, NewRef("3"), 2);
    assert HoldScope(t, 3) == Some(2);
    assert EndOf(t, 2, 4).None?;
    assert EndOf(t, 2, 5) == Some(4);
    Laws.EndStays(t, 2, 5, 6);
    assert FateOf(t, 2, 6) == Sent(4);
    Laws.PlacesAreComplete(t, 6, 3);
    InPlace(t, Held(3, op), 4);
  }

  lemma InPlace<Op>(t: Trace<Op>, h: Held<Op>, n: nat)
    requires h in Place(t, Run(t, |t|), Sent(n))
    ensures n in Run(t, |t|).sent && h in Run(t, |t|).sent[n]
  {
    hide Run;
  }

  // ---------------------------------------------------------------- the run

  const DONE := Response(200, Json(None, NoIssues), false)
  const BROKEN := Response(500, Json(Some("broken"), NoIssues), true)

  /** A mutation that runs under an evicted id has called another one. */
  lemma CutOffMutationRuns<Op(!new)>(maxDepth: nat, q: string, moduleName: string) returns (s: State<Op>)
    requires maxDepth > 0 && ProjectPart(q).Some? && moduleName != "" && q != ProjectPart(q).value + "__" + moduleName
    ensures Reaches(Init(maxDepth), s)
    ensures
      var m := ProjectPart(q).value + "__" + moduleName;
      && |s.versions| == 3 && s.versions[0] == Version(m, Mutation, 2, map[1 := 2])
      && s.versions[1].id == q && s.versions[1].kind.Mutation? && s.versions[2] == Version(q, Mutation, 2, map[1 := 1])
      && |s.calls| == 3
      && s.calls[1] == Call(2, q, Mutation, 1, ProjectOf(q), "", NewRef("2"), 1, 0, None, None, None, None)
      && s.calls[2] == Call(0, m, Mutation, 1, ProjectOf(m), "", NewRef("3"), 2, 1, Some(Origin(1, NoKind)), None, None, None)
      && s.trace == [Open(Mutation, "", ProjectOf(q), "1"), Open(Mutation, "", ProjectOf(q), "2"),
                     Open(Mutation, "", ProjectOf(m), "3")]
  {
    hide Next, ProjectPart, ProjectOf, NewRef, Reaches;
    var m := ProjectPart(q).value + "__" + moduleName;
    var init := Init<Op>(maxDepth);
    var running := TwoRunningVersions<Op>(maxDepth, q, m, Mutation);
    LastRequestTimesOut(running, 1, 0);
    ReachesNext(init, running, TimesOut(1, 1));
    var evicted := Next(running, TimesOut(1, 1));
    CutOffCall(evicted, 1, moduleName, "3");
    ReachesNext(init, evicted, RunX(1, moduleName, "3"));
    s := Next(evicted, RunX(1, moduleName, "3"));
  }

  /**
   A mutation whose id left the table calls another one; that one schedules something and succeeds, and its call is sent
   although the mutation that made it then fails.
   */
  lemma EvictedMutationLosesItsChild<Op(!new)>(maxDepth: nat, q: string, moduleName: string, op: Op) returns (s: State<Op>)
    requires maxDepth > 0 && ProjectPart(q).Some? && moduleName != "" && q != ProjectPart(q).value + "__" + moduleName
    ensures Reaches(Init(maxDepth), s) && OriginsOk(s) && FixedKinds(s) && |s.calls| == 3
    ensures s.calls[1].kind.Mutation? && s.calls[2].kind.Mutation? && s.calls[2].origin == Some(Origin(1, NoKind))
    ensures s.calls[1].ref != "" && s.calls[2].inherited == ""
    ensures s.calls[1].answer.Some? && !Succeeds(s.calls[1].answer.value) && s.calls[1].closedAt == Some(5)
    ensures |s.trace| == 6 && HoldScope(s.trace, 3) == Some(s.calls[2].openedAt) && s.trace[3].op == op
    ensures 4 in Run(s.trace, 6).sent && Held(3, op) in Run(s.trace, 6).sent[4]
  {
    hide Next, ProjectPart, ProjectOf, NewRef, Reaches, Inv, OriginsOk;
    var m := ProjectPart(q).value + "__" + moduleName;
    var init := Init<Op>(maxDepth);
    var s0 := CutOffMutationRuns<Op>(maxDepth, q, moduleName);
    TargetKeepsProject(q, moduleName);
    Scheduled(s0, 2, op);
    ReachesNext(init, s0, Schedules(2, op));
    var s1 := Next(s0, Schedules(2, op));
    Answered(s1, 0, 2, DONE);
    ReachesNext(init, s1, Replies(0, 1, DONE));
    var s2 := Next(s1, Replies(0, 1, DONE));
    Resumed(s2, 2);
    ReachesNext(init, s2, Resumes(2));
    var s3 := Next(s2, Resumes(2));
    Answered(s3, 2, 1, BROKEN);
    ReachesNext(init, s3, Replies(2, 1, BROKEN));
    var s4 := Next(s3, Replies(2, 1, BROKEN));
    Resumed(s4, 1);
    ReachesNext(init, s4, Resumes(1));
    s := Next(s4, Resumes(1));
    ReachedTrees(maxDepth, s);
    ProjectOfPart(m);
    TraceIsWellFormed(s);
    assert s.trace == CutOffTrace(ProjectOf(q), ProjectOf(m), ProjectOf(m), op);
    CutOffCallsAreSent(s.trace, ProjectOf(q), ProjectOf(m), op);
  }

  lemma ProjectOfPart(id: string)
    requires ProjectPart(id).Some?
    ensures ProjectOf(id) == ProjectPart(id).value
  {
    hide ProjectPart;
  }

  lemma TraceIsWellFormed<Op>(s: State<Op>)
    requires Inv(s)
    ensures WellFormed(s.trace)
  {
  }
}
