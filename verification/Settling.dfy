/** What each message does to the invocation it settles, and to the script table. */
module Settling {
  import opened Wrappers
  import opened InvokeErrors
  import opened NestedTransactions
  import opened MutationScopes
  import opened RuntimeModel
  import opened RuntimeInvariants

  /** Call c waits for its worker. */
  ghost predicate Waits<Op>(s: State<Op>, c: nat) {
    c < |s.calls| && s.calls[c].answer.None?
  }

  /** Another call than c waits on a version. */
  ghost predicate OtherWaits<Op>(s: State<Op>, v: nat, c: nat) {
    exists d :: 0 <= d < |s.calls| && d != c && s.calls[d].version == v && Waits(s, d)
  }

  /** Call c settled with an answer, with the counters moved on and one less request on its version; nothing else moved. */
  ghost predicate Settles<Op>(s: State<Op>, after: State<Op>, c: nat, answer: Answer, metrics: Metrics)
    requires c < |s.calls| && s.calls[c].version < |s.versions|
  {
    var version := s.versions[s.calls[c].version];
    after == s.(calls := s.calls[c := s.calls[c].(answer := Some(answer))],
                versions := s.versions[s.calls[c].version := version.(pending := version.pending - {s.calls[c].reqId})],
                scripts := after.scripts,
                metrics := metrics)
  }

  lemma WaitingFacts<Op>(s: State<Op>, c: nat)
    requires Inv(s) && Waits(s, c)
    ensures
      var (v, r) := (s.calls[c].version, s.calls[c].reqId);
      && v < |s.versions| && s.versions[v].id == s.calls[c].id
      && r in s.versions[v].pending && s.versions[v].pending[r] == c && IsPending(s, v, r)
  {
    assert CallOk(s, c);
  }

  /** A reply resolves the call with its response, a missing status read as 200; no id leaves the table. */
  lemma ReplyResolves<Op>(s: State<Op>, c: nat, response: Response)
    requires Inv(s) && Waits(s, c)
    ensures s.calls[c].version < |s.versions|
    ensures
      var after := Next(s, Replies(s.calls[c].version, s.calls[c].reqId, response));
      && Settles(s, after, c, Replied(Response(if response.status == 0 then 200 else response.status, response.body, response.failed)),
                 s.metrics.(invocationsTotal := s.metrics.invocationsTotal + 1))
      && after.scripts == s.scripts
  {
    hide Inv, RunXStep, StartCall, ScheduleStep, CrashStep, ResumeStep, SendEndStep, Sending;
    WaitingFacts(s, c);
  }

  /** A reported error rejects the call with its text; no id leaves the table. */
  lemma ReportRejects<Op>(s: State<Op>, c: nat, error: string)
    requires Inv(s) && Waits(s, c)
    ensures s.calls[c].version < |s.versions|
    ensures
      var after := Next(s, ReportsError(s.calls[c].version, s.calls[c].reqId, error));
      && Settles(s, after, c, Rejected(if error == "" then "worker error" else error, WorkerError),
                 s.metrics.(invocationsTotal := s.metrics.invocationsTotal + 1, invocationsError := s.metrics.invocationsError + 1))
      && after.scripts == s.scripts
  {
    hide Inv, RunXStep, StartCall, ScheduleStep, CrashStep, ResumeStep, SendEndStep, Sending;
    WaitingFacts(s, c);
  }

  /** A version is idle once c's request is gone exactly when no other call waits on it. */
  lemma IdleIffNoOtherWaits<Op>(s: State<Op>, c: nat)
    requires Inv(s) && Waits(s, c)
    ensures
      var v := s.calls[c].version;
      v < |s.versions| && (s.versions[v].pending - {s.calls[c].reqId} == map[] <==> !OtherWaits(s, v, c))
  {
    WaitingFacts(s, c);
    var (v, r) := (s.calls[c].version, s.calls[c].reqId);
    var left := s.versions[v].pending - {r};
    if OtherWaits(s, v, c) {
      var d :| 0 <= d < |s.calls| && d != c && s.calls[d].version == v && Waits(s, d);
      WaitingFacts(s, d);
      assert s.calls[d].reqId in left;
    }
    if left != map[] {
      var q :| q in left;
      assert PendingOk(s, v, q);
    }
  }

  /** A timeout rejects the call, and takes its function's id out of the table exactly when no other call waits on the same
      version: whether or not that version is the one the table holds. */
  lemma TimeoutRejects<Op>(s: State<Op>, c: nat)
    requires Inv(s) && Waits(s, c)
    ensures s.calls[c].version < |s.versions|
    ensures
      var after := Next(s, TimesOut(s.calls[c].version, s.calls[c].reqId));
      && Settles(s, after, c, Rejected("execution timeout (30s)", Timeout),
                 s.metrics.(invocationsTotal := s.metrics.invocationsTotal + 1, invocationsError := s.metrics.invocationsError + 1,
                            timeoutsTotal := s.metrics.timeoutsTotal + 1))
      && after.scripts == if OtherWaits(s, s.calls[c].version, c) then s.scripts else s.scripts - {s.calls[c].id}
  {
    hide Inv, RunXStep, StartCall, ScheduleStep, CrashStep, ResumeStep, SendEndStep, Sending, OtherWaits;
    WaitingFacts(s, c);
    IdleIffNoOtherWaits(s, c);
  }

  lemma WaitsIffPending<Op>(s: State<Op>, v: nat, c: nat)
    requires Inv(s) && v < |s.versions| && c < |s.calls|
    ensures c in s.versions[v].pending.Values <==> s.calls[c].version == v && Waits(s, c)
  {
    if c in s.versions[v].pending.Values {
      var q :| q in s.versions[v].pending && s.versions[v].pending[q] == c;
      assert PendingOk(s, v, q);
    }
    if s.calls[c].version == v && Waits(s, c) { WaitingFacts(s, c); }
  }

  /** A crash rejects every call that waits on the version and no other, and its id leaves the table. */
  lemma CrashRejects<Op>(s: State<Op>, v: nat, message: string)
    requires Inv(s) && v < |s.versions|
    ensures
      var (after, text) := (Next(s, Crashes(v, message)), "worker crashed: " + if message == "" then "unknown" else message);
      && after == s.(calls := after.calls, versions := s.versions[v := s.versions[v].(pending := map[])],
                     scripts := s.scripts - {s.versions[v].id})
      && |after.calls| == |s.calls|
      && forall c :: 0 <= c < |s.calls| ==>
        after.calls[c] == if s.calls[c].version == v && Waits(s, c) then s.calls[c].(answer := Some(Rejected(text, WorkerCrash)))
                          else s.calls[c]
  {
    hide Inv, RunXStep, StartCall, ScheduleStep, SettleStep, ResumeStep, SendEndStep, Sending, Waits;
    var text := "worker crashed: " + if message == "" then "unknown" else message;
    assert Next(s, Crashes(v, message)) == CrashStep(s, v, text);
    forall c | 0 <= c < |s.calls| ensures c in s.versions[v].pending.Values <==> s.calls[c].version == v && Waits(s, c) {
      WaitsIffPending(s, v, c);
    }
  }

  lemma MessageForAnother<Op>(s: State<Op>, v: nat, reqId: nat, answer: Answer, c: nat)
    requires Inv(s) && Waits(s, c) && (v != s.calls[c].version || reqId != s.calls[c].reqId)
    ensures c < |SettleStep(s, v, reqId, answer).calls| && Waits(SettleStep(s, v, reqId, answer), c)
  {
    hide ScopesOk, MetricsOk, StagesOk;
    if IsPending(s, v, reqId) { assert PendingOk(s, v, reqId); }
  }

  /** Nothing but these four settles a call: whoever waits before any other step waits after it. */
  lemma NothingElseSettles<Op>(s: State<Op>, e: Input<Op>, c: nat)
    requires Inv(s) && Waits(s, c) && !e.Crashes?
    requires e.Replies? || e.ReportsError? || e.TimesOut? ==> e.version != s.calls[c].version || e.reqId != s.calls[c].reqId
    ensures c < |Next(s, e).calls| && Waits(Next(s, e), c)
  {
    hide Inv, SettleStep, RunXAllowed, RunXTarget, CrashStep, Starts, ProjectPart, SentBy, LostBy, Succeeds, CrashMessage, ReportText, Resolved;
    match e
    case Replies(v, reqId, response) => MessageForAnother(s, v, reqId, Resolved(response), c);
    case ReportsError(v, reqId, error) => MessageForAnother(s, v, reqId, Rejected(ReportText(error), WorkerError), c);
    case TimesOut(v, reqId) => MessageForAnother(s, v, reqId, Rejected("execution timeout (30s)", Timeout), c);
    case _ =>
  }
}
