/** What an invocation comes to: which answers are successes, and what its caller is told once its calls are sent. */
module Outcomes {
  import opened Wrappers
  import opened InvokeErrors
  import opened NestedTransactions
  import opened MutationScopes
  import opened RuntimeModel
  import opened RuntimeInvariants
  import opened RuntimeLaws
  import Laws = NestedTransactionLaws

  // ---------------------------------------------------------------- successes

  /** An invocation succeeds exactly when its worker answered with a status from 200 to 299 and no top-level error text. */
  lemma SucceedsIff(answer: Answer)
    ensures Succeeds(answer) <==>
      && answer.Replied?
      && 200 <= answer.response.status <= 299
      && (answer.response.body.Plain? || answer.response.body.error.None?)
  {
  }

  /** A handler that throws fails its invocation, whatever it throws and however many uncaught hops away it was thrown. */
  lemma ThrowFails(err: Thrown, hops: nat)
    ensures !Succeeds(Replied(Respond(Hops(err, hops))))
  {
    KindSurvives(err, hops);
  }

  /** What a call closed its scope with: "success" exactly for such an answer. */
  lemma ClosesAsAnswered<Op>(s: State<Op>, c: nat)
    requires Inv(s) && c < |s.calls| && s.calls[c].closedAt.Some?
    ensures s.calls[c].answer.Some? && s.calls[c].closedAt.value < |s.trace|
    ensures
      var (answer, close) := (s.calls[c].answer.value, s.trace[s.calls[c].closedAt.value]);
      && close.Close? && close.ref == s.calls[c].ref
      && (close.settled.Succeeded? <==>
            && answer.Replied?
            && 200 <= answer.response.status <= 299
            && (answer.response.body.Plain? || answer.response.body.error.None?))
  {
    assert ScopeOk(s.trace, s.calls[c]);
    hide Inv, Succeeds;
    SucceedsIff(s.calls[c].answer.value);
  }

  /** If a mutation's handler throws, or lets through what a nested call threw, nothing its scope ever carried is sent, in
      any run from there. */
  lemma ThrowSendsNothing<Op>(s: State<Op>, inputs: seq<Input<Op>>, c: nat, k: nat, n: nat, err: Thrown, hops: nat)
    requires Inv(s) && c < |s.calls| && s.calls[c].answer == Some(Replied(Respond(Hops(err, hops)))) && s.calls[c].ref != ""
    requires
      var t := After(s, inputs).trace;
      k < |t| && HoldScope(t, k).Some? && s.calls[c].openedAt in Ancestry(t, HoldScope(t, k).value)
    ensures
      var after := After(s, inputs);
      n in Run(after.trace, |after.trace|).sent ==> Held(k, after.trace[k].op) !in Run(after.trace, |after.trace|).sent[n]
  {
    hide Inv, After, HoldScope, Ancestry, Run, Respond, Hops;
    ThrowFails(err, hops);
    FailureSendsNothing(s, inputs, c, k, n);
  }

  // ---------------------------------------------------------------- what is held

  /** A ctx.scheduler call of a call that has a scope is held by that very scope until the call closes it; afterwards no
      scope takes it. */
  lemma ScheduledCallIsHeldIff<Op>(s: State<Op>, c: nat, op: Op)
    requires Inv(s) && c < |s.calls| && s.calls[c].ref != "" && !s.calls[c].kind.NoKind? && ProjectPart(s.calls[c].id).Some?
    ensures
      var t := Next(s, Schedules(c, op)).trace;
      && t == s.trace + [Hold(s.calls[c].ref, s.calls[c].projectId, op)]
      && HoldScope(t, |s.trace|) == if s.calls[c].closedAt.None? then Some(s.calls[c].openedAt) else None
  {
    ScheduleOnTrace(s, c, op);
    HoldOnTrace(s, c, op);
  }

  lemma ScheduleOnTrace<Op>(s: State<Op>, c: nat, op: Op)
    requires Inv(s) && c < |s.calls| && s.calls[c].ref != "" && !s.calls[c].kind.NoKind? && ProjectPart(s.calls[c].id).Some?
    ensures Next(s, Schedules(c, op)).trace == s.trace + [Hold(s.calls[c].ref, s.calls[c].projectId, op)]
  {
    hide Inv, ProjectPart, RunXStep, StartCall, SettleStep, CrashStep, ResumeStep, SendEndStep, Sending;
    ProjectIsPart(s, c);
  }

  lemma HoldOnTrace<Op>(s: State<Op>, c: nat, op: Op)
    requires Inv(s) && c < |s.calls| && s.calls[c].ref != ""
    ensures
      var t := s.trace + [Hold(s.calls[c].ref, s.calls[c].projectId, op)];
      HoldScope(t, |s.trace|) == if s.calls[c].closedAt.None? then Some(s.calls[c].openedAt) else None
  {
    hide TablesOk, StagesOk, MetricsOk, LiveScope, EndOf, Succeeds;
    var (n, ref) := (|s.trace|, s.calls[c].ref);
    var t := s.trace + [Hold(ref, s.calls[c].projectId, op)];
    assert ScopeOk(s.trace, s.calls[c]);
    Laws.LiveScopeOfPrefix(s.trace, t, n, ref);
    Laws.LiveScopeExact(s.trace, n, ref, s.calls[c].openedAt);
    if LiveScope(s.trace, n, ref).Some? {
      var i := LiveScope(s.trace, n, ref).value;
      Laws.LiveScopeExact(s.trace, n, ref, i);
      Laws.SameRef(s.trace, i, s.calls[c].openedAt);
    }
  }

  // ---------------------------------------------------------------- what is handed over, over a run

  /** The held calls that call c's close handed over to be sent; none before it closed its scope. */
  ghost function HandedOver<Op>(s: State<Op>, c: nat): seq<Held<Op>>
    requires c < |s.calls|
  {
    var end := s.calls[c].closedAt;
    if end.Some? && end.value < |s.trace| && s.trace[end.value].Close? then SentBy(s.trace, end.value) else []
  }

  /** What a call handed over is settled at its close. */
  lemma HandedOverStays<Op>(s: State<Op>, inputs: seq<Input<Op>>, c: nat)
    requires Inv(s) && c < |s.calls| && s.calls[c].closedAt.Some?
    ensures c < |After(s, inputs).calls| && HandedOver(After(s, inputs), c) == HandedOver(s, c)
  {
    hide After, SentBy, LostBy, WellFormed;
    InvocationSettlesOnce(s, inputs, c);
    assert ScopeOk(s.trace, s.calls[c]);
    SentByOfPrefix(s.trace, After(s, inputs).trace, s.calls[c].closedAt.value);
  }

  /** Over every run, a scheduler call that was held is handed over by some invocation's close exactly when its scope and
      every scope it was opened under succeeded, each nested one while its parent was live. */
  lemma HeldCallIsHandedOverIff<Op>(s: State<Op>, k: nat)
    requires Inv(s) && k < |s.trace| && HoldScope(s.trace, k).Some?
    ensures (exists c :: 0 <= c < |s.calls| && Held(k, s.trace[k].op) in HandedOver(s, c)) <==>
            (forall a :: a in Ancestry(s.trace, HoldScope(s.trace, k).value) ==> Commits(s.trace, a, |s.trace|))
  {
    assert WellFormed(s.trace);
    hide Inv, SentBy, HoldScope, Ancestry, Commits, WellFormed, Run, Succeeds;
    HandedOverIffAncestryCommits(s.trace, k);
    if n :| 0 <= n < |s.trace| && s.trace[n].Close? && Held(k, s.trace[k].op) in SentBy(s.trace, n) {
      var c := CallOfBatch(s, n);
    }
  }

  lemma CallOfBatch<Op>(s: State<Op>, n: nat) returns (c: nat)
    requires Inv(s) && n < |s.trace| && s.trace[n].Close? && SentBy(s.trace, n) != []
    ensures c < |s.calls| && HandedOver(s, c) == SentBy(s.trace, n)
  {
    assert WellFormed(s.trace);
    hide Inv, SentBy, WellFormed, Run, Succeeds;
    FiledBatch(s.trace, n);
    BatchHasItsCall(s, n);
    c :| 0 <= c < |s.calls| && s.calls[c].closedAt == Some(n);
  }

  lemma FiledBatch<Op>(t: Trace<Op>, n: nat)
    requires WellFormed(t) && n < |t| && t[n].Close? && SentBy(t, n) != []
    ensures n in Run(t, |t|).sent
  {
    hide SentBy, Run, WellFormed;
    CloseHandsOver(t, n);
    BatchStays(t, n, n + 1, |t|);
  }

  /** And none is handed over twice: not by two invocations, and not twice by one. */
  lemma HeldCallIsHandedOverOnce<Op>(s: State<Op>, c: nat, m: nat, c': nat, m': nat)
    requires Inv(s) && c < |s.calls| && c' < |s.calls| && m < |HandedOver(s, c)| && m' < |HandedOver(s, c')|
    requires HandedOver(s, c)[m].at == HandedOver(s, c')[m'].at
    ensures c == c' && m == m'
  {
    assert WellFormed(s.trace);
    hide TablesOk, StagesOk, MetricsOk, WellFormed, LiveScope;
    HandedOverOnce(s.trace, s.calls[c].closedAt.value, m, s.calls[c'].closedAt.value, m');
    assert ScopeOk(s.trace, s.calls[c]) && ScopeOk(s.trace, s.calls[c']);
    assert LiveScope(s.trace, s.calls[c].closedAt.value, s.calls[c].ref).Some?;
    InvocationsHaveTheirOwnScope(s, c, c');
  }

  // ---------------------------------------------------------------- the end of a send

  /** The caller of call c waits for its calls to be recorded. */
  ghost predicate Awaits<Op>(s: State<Op>, c: nat) {
    c < |s.calls| && s.calls[c].closedAt.Some? && s.calls[c].result.None?
  }

  /** In the course of a run, while its caller waited, call c's send resolved, or was refused. */
  ghost predicate SendEnded<Op>(start: State<Op>, inputs: seq<Input<Op>>, c: nat, resolved: bool) {
    exists m :: 0 <= m < |inputs| && inputs[m] == SendEnds(c, resolved) && Awaits(After(start, inputs[..m]), c)
  }

  /** What a caller is told whose mutation succeeded but whose calls were not recorded. */
  function NotRecorded(res: Response): CallResult {
    Returns(Response(500, Json(Some("the mutation succeeded but its scheduled functions were not recorded"), NoIssues), res.failed))
  }

  /** A close that has a batch on file handed it over, and its call succeeded. */
  lemma BatchMeansSent<Op>(s: State<Op>, c: nat)
    requires Inv(s) && c < |s.calls| && s.calls[c].closedAt.Some?
    ensures
      var n := s.calls[c].closedAt.value;
      && n < |s.trace| && s.trace[n].Close? && s.calls[c].answer.Some?
      && (n in Run(s.trace, |s.trace|).sent <==> SentBy(s.trace, n) != [])
      && (n in Run(s.trace, |s.trace|).lost <==> LostBy(s.trace, n))
      && (SentBy(s.trace, n) != [] ==> !LostBy(s.trace, n) && Succeeds(s.calls[c].answer.value))
  {
    hide TablesOk, StagesOk, MetricsOk, WellFormed, SentBy, LostBy, Succeeds;
    var n := s.calls[c].closedAt.value;
    assert ScopeOk(s.trace, s.calls[c]);
    hide ScopesOk, ScopeOk;
    CloseHandsOver(s.trace, n);
    BatchStays(s.trace, n, n + 1, |s.trace|);
    if SentBy(s.trace, n) != [] {
      SentOnlyOnSuccess(s.trace, n);
      SentIsNotLost(s.trace, n);
    }
    if n in Run(s.trace, |s.trace|).sent { Laws.BatchIsGathered(s.trace, |s.trace|, n); }
  }

  lemma SentIsNotLost<Op>(t: Trace<Op>, n: nat)
    requires n < |t| && t[n].Close? && SentBy(t, n) != []
    ensures !LostBy(t, n)
  {
    hide LiveScope, Parent, Gathered, EndOf;
  }

  /** What a call that closed its scope tells its caller: the error it was rejected with; the response it got, where it had
      no calls to send or lose; the refusal, where its calls were lost; and for a batch the response once it is
      acknowledged, before that nothing or the refusal. */
  lemma CallerIsTold<Op>(s: State<Op>, c: nat)
    requires Inv(s) && ResultsOk(s) && c < |s.calls| && s.calls[c].closedAt.Some?
    ensures s.calls[c].answer.Some?
    ensures
      var (n, result, table) := (s.calls[c].closedAt.value, s.calls[c].result, Run(s.trace, |s.trace|));
      match s.calls[c].answer.value
      case Rejected(error, _) => n !in table.sent && n !in table.lost && result == Some(Throws(error))
      case Replied(res) =>
        if n in table.lost then result == Some(NotRecorded(res))
        else if n !in table.sent then result == Some(Returns(res))
        else if n in s.acknowledged then result == Some(Returns(res))
        else result.None? || result == Some(NotRecorded(res))
  {
    hide Inv, ResultsOk, SentBy, LostBy, Run, IsFailure;
    SuccessParts(s, c);
    BatchMeansSent(s, c);
    RejectedLosesNothing(s, c);
  }

  lemma RejectedLosesNothing<Op>(s: State<Op>, c: nat)
    requires Inv(s) && c < |s.calls| && s.calls[c].closedAt.Some?
    ensures
      var n := s.calls[c].closedAt.value;
      n < |s.trace| && s.trace[n].Close? && s.calls[c].answer.Some? && (LostBy(s.trace, n) ==> Succeeds(s.calls[c].answer.value))
  {
    hide TablesOk, StagesOk, MetricsOk, LiveScope, Parent, Gathered, EndOf, Starts, WellFormed, IsFailure;
    assert ScopeOk(s.trace, s.calls[c]);
  }

  /** An end that came while the caller waited settled what it is told. */
  lemma EndTellsTheCaller<Op>(maxDepth: nat, inputs: seq<Input<Op>>, c: nat, resolved: bool)
    requires SendEnded(Init(maxDepth), inputs, c, resolved)
    ensures
      var s := After(Init(maxDepth), inputs);
      && c < |s.calls| && s.calls[c].answer.Some? && s.calls[c].answer.value.Replied?
      && var res := s.calls[c].answer.value.response;
      && Succeeds(Replied(res))
      && s.calls[c].result == Some(if resolved then Returns(res) else NotRecorded(res))
  {
    hide Inv, ResultsOk, Next, After, Succeeds;
    var start := Init<Op>(maxDepth);
    var m :| 0 <= m < |inputs| && inputs[m] == SendEnds(c, resolved) && Awaits(After(start, inputs[..m]), c);
    ReachableStates<Op>(maxDepth, inputs[..m]);
    ReachableStates<Op>(maxDepth, inputs[..m + 1]);
    var before := After(start, inputs[..m]);
    EndSettles(before, c, resolved);
    AfterCut(start, inputs, m);
    InvocationSettlesOnce(After(start, inputs[..m + 1]), inputs[m + 1..], c);
  }

  lemma EndSettles<Op>(s: State<Op>, c: nat, resolved: bool)
    requires Inv(s) && Awaits(s, c)
    ensures
      var after := Next(s, SendEnds(c, resolved));
      && c < |after.calls| && after.calls[c].answer.Some? && after.calls[c].answer.value.Replied?
      && var res := after.calls[c].answer.value.response;
      && Succeeds(Replied(res))
      && after.calls[c].result == Some(if resolved then Returns(res) else NotRecorded(res))
  {
    hide TablesOk, ScopesOk, MetricsOk, RunXStep, StartCall, ScheduleStep, SettleStep, CrashStep, ResumeStep, IsFailure;
    assert StageOk(s.calls[c]);
  }

  /** A caller whose call had a batch has been told something only because the send ended. */
  lemma {:induction false} ToldMeansEnded<Op>(maxDepth: nat, inputs: seq<Input<Op>>, c: nat)
    requires
      var s := After(Init<Op>(maxDepth), inputs);
      && c < |s.calls| && s.calls[c].closedAt.Some? && s.calls[c].result.Some?
      && s.calls[c].closedAt.value in Run(s.trace, |s.trace|).sent
    ensures SendEnded(Init(maxDepth), inputs, c, true) || SendEnded(Init(maxDepth), inputs, c, false)
    decreases |inputs|
  {
    hide Inv, ResultsOk, Next, Run;
    var start := Init<Op>(maxDepth);
    if inputs != [] {
      var last := |inputs| - 1;
      var (earlier, e) := (inputs[..last], inputs[last]);
      assert inputs == earlier + [e];
      hide After;
      AfterOneMore(start, earlier, e);
      ReachableStates<Op>(maxDepth, earlier);
      var s := After(start, earlier);
      ToldByItsStep(s, e, c);
      if c < |s.calls| && s.calls[c].closedAt.Some? && s.calls[c].result.Some? {
        ToldMeansEnded(maxDepth, earlier, c);
        forall resolved | SendEnded(start, earlier, c, resolved) ensures SendEnded(start, inputs, c, resolved) {
          EndedLater(start, inputs, c, resolved);
        }
      }
    }
  }

  lemma EndedLater<Op>(start: State<Op>, inputs: seq<Input<Op>>, c: nat, resolved: bool)
    requires inputs != [] && SendEnded(start, inputs[..|inputs| - 1], c, resolved)
    ensures SendEnded(start, inputs, c, resolved)
  {
    hide Awaits, After;
    var earlier := inputs[..|inputs| - 1];
    var m :| 0 <= m < |earlier| && earlier[m] == SendEnds(c, resolved) && Awaits(After(start, earlier[..m]), c);
    assert earlier[..m] == inputs[..m] && earlier[m] == inputs[m];
  }

  /** The step that tells the caller of a call with a batch is the end of its send. */
  lemma ToldByItsStep<Op>(s: State<Op>, e: Input<Op>, c: nat)
    requires Inv(s) && ResultsOk(s)
    requires
      var after := Next(s, e);
      && c < |after.calls| && after.calls[c].closedAt.Some? && after.calls[c].result.Some?
      && after.calls[c].closedAt.value in Run(after.trace, |after.trace|).sent
    ensures c < |s.calls| && s.calls[c].closedAt.Some?
    ensures if s.calls[c].result.Some? then s.calls[c].closedAt.value in Run(s.trace, |s.trace|).sent
            else e == SendEnds(c, true) || e == SendEnds(c, false)
  {
    hide Inv, ResultsOk, Next, Run, SentBy, LostBy;
    if c >= |s.calls| { NewCallsAreOpen(s, e, c); assert false; }
    NextKeepsInv(s, e);
    SuccessParts(s, c);
    CallContinues(s, e, c);
    BatchMeansSent(Next(s, e), c);
    if e == Resumes(c) {
      ResumeWithBatch(s, c);
    } else if e.SendEnds? && e.call == c {
      SendEndKeepsClose(s, c, e.resolved);
    } else {
      OthersLeaveTheEnd(s, e, c);
    }
    if s.calls[c].closedAt.Some? {
      BatchMeansSent(s, c);
      SentByOfPrefix(s.trace, Next(s, e).trace, s.calls[c].closedAt.value);
    }
  }

  lemma SendEndKeepsClose<Op>(s: State<Op>, c: nat, resolved: bool)
    requires c < |s.calls|
    ensures
      var after := Next(s, SendEnds(c, resolved));
      |after.calls| == |s.calls| && after.calls[c].closedAt == s.calls[c].closedAt
  {
    hide RunXStep, StartCall, ScheduleStep, SettleStep, CrashStep, ResumeStep;
  }

  /** A close that hands over a batch leaves the caller waiting. */
  lemma ResumeWithBatch<Op>(s: State<Op>, c: nat)
    requires Inv(s) && c < |s.calls|
    requires
      var after := Next(s, Resumes(c));
      && c < |after.calls| && after.calls[c].closedAt.Some? && after.calls[c].result.Some?
      && after.calls[c].closedAt.value < |after.trace| && after.trace[after.calls[c].closedAt.value].Close?
      && SentBy(after.trace, after.calls[c].closedAt.value) != [] && !LostBy(after.trace, after.calls[c].closedAt.value)
      && after.calls[c].answer.Some? && Succeeds(after.calls[c].answer.value)
    ensures s.calls[c].closedAt.Some? && s.calls[c].result.Some?
  {
    hide Inv, SentBy, LostBy, RunXStep, StartCall, ScheduleStep, SettleStep, CrashStep, SendEndStep, IsFailure;
  }

  /**
   Over every run, for every call that closed with a batch: the batch is acknowledged, and the caller gets the handler's
   own response, exactly when the send resolved; the caller gets the refusal exactly when it was refused; and until one
   of the two it waits.
   */
  lemma CallerHearsOfTheSend<Op>(maxDepth: nat, inputs: seq<Input<Op>>, c: nat)
    requires
      var s := After(Init<Op>(maxDepth), inputs);
      c < |s.calls| && s.calls[c].closedAt.Some? && s.calls[c].closedAt.value in Run(s.trace, |s.trace|).sent
    ensures
      var (start, s) := (Init<Op>(maxDepth), After(Init<Op>(maxDepth), inputs));
      && s.calls[c].answer.Some? && s.calls[c].answer.value.Replied?
      && var (res, result) := (s.calls[c].answer.value.response, s.calls[c].result);
      && (s.calls[c].closedAt.value in s.acknowledged <==> SendEnded(start, inputs, c, true))
      && (result == Some(Returns(res)) <==> SendEnded(start, inputs, c, true))
      && (result == Some(NotRecorded(res)) <==> SendEnded(start, inputs, c, false))
      && (result.None? <==> !SendEnded(start, inputs, c, true) && !SendEnded(start, inputs, c, false))
  {
    hide Inv, ResultsOk, After, Run, SendEnded;
    ReachableStates<Op>(maxDepth, inputs);
    var (start, s) := (Init<Op>(maxDepth), After(Init<Op>(maxDepth), inputs));
    CallerIsTold(s, c);
    BatchMeansSent(s, c);
    SucceedsIff(s.calls[c].answer.value);
    if s.calls[c].result.Some? { ToldMeansEnded(maxDepth, inputs, c); }
    forall resolved | SendEnded(start, inputs, c, resolved) {
      EndTellsTheCaller(maxDepth, inputs, c, resolved);
    }
  }
}
