/** The trees that nested ctx.run* calls build: kinds, depths, projects and scope chains along a call path. */
module CallTrees {
  import opened Wrappers
  import opened Text
  import opened NestedTransactions
  import opened MutationScopes
  import opened RuntimeModel
  import opened RuntimeInvariants
  import opened RuntimeLaws
  import Laws = NestedTransactionLaws

  // ---------------------------------------------------------------- what a nested call records

  /** The kind the script table showed for an id was that of one of its versions, or none. */
  ghost predicate WasSeen<Op>(s: State<Op>, id: string, kind: Kind) {
    kind.NoKind? || exists v :: 0 <= v < |s.versions| && s.versions[v].id == id && s.versions[v].kind == kind
  }

  ghost predicate OriginOk<Op>(s: State<Op>, c: nat)
    requires c < |s.calls|
  {
    var call := s.calls[c];
    call.origin.Some? ==>
      var p := call.origin.value.caller;
      var seen := call.origin.value.seenKind;
      && p < c
      && (IsTyped(s.calls[p].kind) || IsHttp(s.calls[p].kind))
      && WasSeen(s, s.calls[p].id, seen)
      && MatrixAllows(seen, call.kind)
      && call.projectId == s.calls[p].projectId
      && call.inherited == (if seen.Mutation? && call.kind.Mutation? then s.calls[p].ref else "")
      && s.calls[p].openedAt < call.openedAt
      && (if IsTyped(call.kind) then call.depth == s.calls[p].depth + 1 <= s.maxDepth else call.depth == 0)
  }

  ghost predicate OriginsOk<Op>(s: State<Op>) {
    forall c :: 0 <= c < |s.calls| ==> OriginOk(s, c)
  }

  lemma IsSeparator(id: string, i: nat)
    ensures OccursAt(id, "__", i) <==> i + 2 <= |id| && id[i] == '_' && id[i + 1] == '_'
  {
    if i + 2 <= |id| { assert id[i..i + 2] == [id[i], id[i + 1]]; }
  }

  /** An id has a project part exactly when it has two underscores in a row somewhere, and it is all that stands before the
      first two. */
  lemma ProjectPartIff(id: string, project: string)
    ensures ProjectPart(id) == Some(project) <==>
      && |project| + 2 <= |id| && id == project + "__" + id[|project| + 2..]
      && forall i :: 0 <= i < |project| ==> !(id[i] == '_' && id[i + 1] == '_')
    ensures ProjectPart(id).None? <==> forall i :: 0 <= i < |id| - 1 ==> !(id[i] == '_' && id[i + 1] == '_')
    ensures ProjectOf(id) == if ProjectPart(id) == Some(project) then project else if ProjectPart(id).None? then "" else ProjectPart(id).value
  {
    forall i: nat ensures OccursAt(id, "__", i) <==> i + 2 <= |id| && id[i] == '_' && id[i + 1] == '_' { IsSeparator(id, i); }
    hide OccursAt;
    var sep := |project|;
    if ProjectPart(id).None? {
      forall i | 0 <= i < |id| - 1 ensures !(id[i] == '_' && id[i + 1] == '_') { assert !OccursAt(id, "__", i); }
    } else {
      var i := Find(id, "__").value;
      assert id[i] == '_' && id[i + 1] == '_';
    }
    if sep + 2 <= |id| {
      assert id == id[..sep] + [id[sep], id[sep + 1]] + id[sep + 2..];
      assert (project + "__" + id[sep + 2..])[..sep] == project && (project + "__" + id[sep + 2..])[sep] == '_'
        && (project + "__" + id[sep + 2..])[sep + 1] == '_';
    }
  }

  /** The id dispatchRunX builds has the caller's project in front of its first separator. */
  lemma TargetKeepsProject(id: string, moduleName: string)
    requires ProjectPart(id).Some?
    ensures ProjectPart(ProjectPart(id).value + "__" + moduleName) == ProjectPart(id)
    ensures ProjectOf(ProjectPart(id).value + "__" + moduleName) == ProjectOf(id)
  {
    hide ProjectPart;
    var project := ProjectPart(id).value;
    var target := project + "__" + moduleName;
    ProjectPartIff(id, project);
    var front := project + "__";
    assert target == front + moduleName && id == front + id[|front|..];
    assert forall i :: 0 <= i < |front| ==> target[i] == front[i] == id[i];
    assert target[|front|..] == moduleName;
    ProjectPartIff(target, project);
  }

  /** Versions are only ever added. */
  ghost predicate VersionsGrow<Op>(s: State<Op>, after: State<Op>) {
    && |s.versions| <= |after.versions|
    && after.maxDepth == s.maxDepth
    && forall v :: 0 <= v < |s.versions| ==>
         after.versions[v].id == s.versions[v].id && after.versions[v].kind == s.versions[v].kind
  }

  lemma NextGrowsVersions<Op>(s: State<Op>, e: Input<Op>)
    ensures VersionsGrow(s, Next(s, e))
  {
    hide RunXStep, SettleStep, CrashStep, ProjectOf, Starts, SentBy, LostBy, IsFailure, NewRef;
    match e
    case RunX(p, moduleName, uuid) => if p < |s.calls| { RunXGrowsVersions(s, p, moduleName, uuid); }
    case Replies(v, reqId, response) => SettleGrowsVersions(s, v, reqId, Resolved(response));
    case ReportsError(v, reqId, error) => SettleGrowsVersions(s, v, reqId, Rejected(ReportText(error), WorkerError));
    case TimesOut(v, reqId) => SettleGrowsVersions(s, v, reqId, Rejected("execution timeout (30s)", Timeout));
    case Crashes(v, message) => if v < |s.versions| { CrashGrowsVersions(s, v, CrashMessage(message)); }
    case _ =>
  }

  lemma SettleGrowsVersions<Op>(s: State<Op>, v: nat, reqId: nat, answer: Answer)
    ensures VersionsGrow(s, SettleStep(s, v, reqId, answer))
  {
  }

  lemma CrashGrowsVersions<Op>(s: State<Op>, v: nat, error: string)
    requires v < |s.versions|
    ensures VersionsGrow(s, CrashStep(s, v, error))
  {
  }

  lemma RunXGrowsVersions<Op>(s: State<Op>, p: nat, moduleName: string, uuid: string)
    requires p < |s.calls|
    ensures VersionsGrow(s, RunXStep(s, p, moduleName, uuid))
  {
    hide ProjectPart, ProjectOf, KindIn, Starts, NewRef, MatrixAllows, IsTyped, IsHttp;
  }

  lemma OldOriginOk<Op>(s: State<Op>, after: State<Op>, c: nat)
    requires c < |s.calls| <= |after.calls| && OriginOk(s, c) && VersionsGrow(s, after)
    requires forall d :: 0 <= d <= c ==> Continues(s.calls[d], after.calls[d])
    ensures OriginOk(after, c)
  {
    hide IsTyped, IsHttp, MatrixAllows;
    if s.calls[c].origin.Some? {
      var (p, seen) := (s.calls[c].origin.value.caller, s.calls[c].origin.value.seenKind);
      assert Continues(s.calls[p], after.calls[p]) && Continues(s.calls[c], after.calls[c]);
      if !seen.NoKind? {
        var v :| 0 <= v < |s.versions| && s.versions[v].id == s.calls[p].id && s.versions[v].kind == seen;
        assert after.versions[v].id == s.calls[p].id && after.versions[v].kind == seen;
      }
    }
  }

  lemma NewOriginOk<Op>(s: State<Op>, p: nat, moduleName: string, uuid: string)
    requires Inv(s) && p < |s.calls| && RunXAllowed(s, p, moduleName)
    ensures |RunXStep(s, p, moduleName, uuid).calls| == |s.calls| + 1
    ensures OriginOk(RunXStep(s, p, moduleName, uuid), |s.calls|)
  {
    var after := RunXStep(s, p, moduleName, uuid);
    var (v, inherited, seen) := RunXTarget(s, p, moduleName);
    assert CallOk(s, p) && ScopeOk(s.trace, s.calls[p]);
    TargetKeepsProject(s.calls[p].id, moduleName);
    assert WasSeen(s, s.calls[p].id, seen) by { SeenInTable(s, s.calls[p].id); }
    assert WasSeen(after, s.calls[p].id, seen) by {
      if !seen.NoKind? {
        var w :| 0 <= w < |s.versions| && s.versions[w].id == s.calls[p].id && s.versions[w].kind == seen;
        assert after.versions[w].id == s.calls[p].id && after.versions[w].kind == seen;
      }
    }
  }

  lemma SeenInTable<Op>(s: State<Op>, id: string)
    requires TablesOk(s)
    ensures WasSeen(s, id, KindIn(s.scripts, s.versions, id))
  {
    if id in s.scripts { assert s.versions[s.scripts[id]].id == id; }
  }

  /** A call that some other input starts has no caller. */
  lemma OnlyRunXHasOrigin<Op>(s: State<Op>, e: Input<Op>, c: nat)
    requires !e.RunX? && |s.calls| <= c < |Next(s, e).calls|
    ensures Next(s, e).calls[c].origin.None?
  {
    hide ProjectPart, ProjectOf, KindIn, Starts, NewRef, SentBy, LostBy;
  }

  /** A nested call that starts something passed its checks. */
  lemma NewCallWasAllowed<Op>(s: State<Op>, p: nat, moduleName: string, uuid: string)
    requires |Next(s, RunX(p, moduleName, uuid)).calls| > |s.calls|
    ensures p < |s.calls| && RunXAllowed(s, p, moduleName)
    ensures Next(s, RunX(p, moduleName, uuid)) == RunXStep(s, p, moduleName, uuid)
  {
    hide RunXAllowed, RunXTarget, StartCall, Starts, NewRef;
  }

  lemma InvParts<Op>(s: State<Op>)
    requires Inv(s)
    ensures TablesOk(s) && StagesOk(s)
  {
  }

  lemma NextKeepsOrigins<Op>(s: State<Op>, e: Input<Op>)
    requires Inv(s) && OriginsOk(s)
    ensures OriginsOk(Next(s, e))
  {
    hide Next, Inv, TablesOk, StagesOk, VersionsGrow, Continues, OriginOk, RunXAllowed, RunXStep;
    var after := Next(s, e);
    NextGrowsVersions(s, e);
    InvParts(s);
    forall d | 0 <= d < |s.calls| ensures d < |after.calls| && Continues(s.calls[d], after.calls[d]) {
      CallContinues(s, e, d);
    }
    forall c | 0 <= c < |after.calls| ensures OriginOk(after, c) {
      if c < |s.calls| {
        CallContinues(s, e, |s.calls| - 1);
        OldOriginOk(s, after, c);
      } else if e.RunX? {
        NewCallWasAllowed(s, e.caller, e.moduleName, e.uuid);
        NewOriginOk(s, e.caller, e.moduleName, e.uuid);
      } else {
        OnlyRunXHasOrigin(s, e, c);
        NoOriginOk(after, c);
      }
    }
  }

  lemma NoOriginOk<Op>(s: State<Op>, c: nat)
    requires c < |s.calls| && s.calls[c].origin.None?
    ensures OriginOk(s, c)
  {
  }

  lemma {:induction false} OriginsHold<Op>(s: State<Op>, inputs: seq<Input<Op>>)
    requires Inv(s) && OriginsOk(s)
    ensures Inv(After(s, inputs)) && OriginsOk(After(s, inputs))
    decreases |inputs|
  {
    hide Next, Inv, OriginsOk;
    if inputs != [] {
      NextKeepsInv(s, inputs[0]);
      NextKeepsOrigins(s, inputs[0]);
      OriginsHold(Next(s, inputs[0]), inputs[1..]);
    }
  }

  lemma ReachableTrees<Op>(maxDepth: nat, inputs: seq<Input<Op>>)
    ensures Inv(After(Init<Op>(maxDepth), inputs)) && OriginsOk(After(Init<Op>(maxDepth), inputs))
  {
    InitHolds<Op>(maxDepth);
    OriginsHold(Init<Op>(maxDepth), inputs);
  }

  // ---------------------------------------------------------------- along a call path

  /** Every id is always deployed with one kind. */
  ghost predicate FixedKinds<Op>(s: State<Op>) {
    forall v, w :: 0 <= v < |s.versions| && 0 <= w < |s.versions| && s.versions[v].id == s.versions[w].id ==>
      s.versions[v].kind == s.versions[w].kind
  }

  ghost function Caller<Op>(s: State<Op>, c: nat): (p: nat)
    requires OriginsOk(s) && c < |s.calls| && s.calls[c].origin.Some?
    ensures p < c
  {
    assert OriginOk(s, c);
    s.calls[c].origin.value.caller
  }

  /** Call c was made by call a, or beneath it. */
  ghost predicate Beneath<Op>(s: State<Op>, a: nat, c: nat)
    requires OriginsOk(s) && c < |s.calls|
    decreases c
  {
    c == a || (s.calls[c].origin.Some? && Beneath(s, a, Caller(s, c)))
  }

  /** The number of nested calls from a down to c. */
  ghost function HopsBetween<Op>(s: State<Op>, a: nat, c: nat): nat
    requires OriginsOk(s) && c < |s.calls| && Beneath(s, a, c)
    decreases c
  {
    if c == a then 0 else 1 + HopsBetween(s, a, Caller(s, c))
  }

  /** Every call below a on the way down to c is to a query, a mutation or an action. */
  ghost predicate TypedBelow<Op>(s: State<Op>, a: nat, c: nat)
    requires OriginsOk(s) && c < |s.calls| && Beneath(s, a, c)
    decreases c
  {
    c == a || (IsTyped(s.calls[c].kind) && TypedBelow(s, a, Caller(s, c)))
  }

  /** Each of those calls was dispatched while the script table held its caller's id. */
  ghost predicate CallersHeld<Op>(s: State<Op>, a: nat, c: nat)
    requires OriginsOk(s) && c < |s.calls| && Beneath(s, a, c)
    decreases c
  {
    c == a || (!s.calls[c].origin.value.seenKind.NoKind? && CallersHeld(s, a, Caller(s, c)))
  }

  /** With fixed kinds, a caller the table holds is seen with its own kind. */
  lemma SeenKindIsOwn<Op>(s: State<Op>, c: nat)
    requires Inv(s) && OriginsOk(s) && FixedKinds(s) && c < |s.calls| && s.calls[c].origin.Some?
    ensures s.calls[c].origin.value.seenKind.NoKind? || s.calls[c].origin.value.seenKind == s.calls[Caller(s, c)].kind
  {
    assert OriginOk(s, c);
    assert CallOk(s, Caller(s, c));
  }

  /** Everything beneath a query is a query. */
  lemma {:induction false} QueriesCallQueries<Op>(s: State<Op>, a: nat, c: nat)
    requires Inv(s) && OriginsOk(s) && FixedKinds(s) && a < |s.calls| && c < |s.calls| && s.calls[a].kind.Query?
    requires Beneath(s, a, c) && TypedBelow(s, a, c) && CallersHeld(s, a, c)
    ensures s.calls[c].kind.Query?
    decreases c
  {
    if c != a {
      QueriesCallQueries(s, a, Caller(s, c));
      SeenKindIsOwn(s, c);
      assert OriginOk(s, c);
    }
  }

  /** A query's call to a mutation or an action goes through exactly when the query's own id has left the
      script table. */
  lemma QueryEscapesIffEvicted<Op>(s: State<Op>, p: nat, moduleName: string)
    requires Inv(s) && FixedKinds(s) && p < |s.calls| && s.calls[p].kind.Query?
    requires moduleName != "" && s.calls[p].depth < s.maxDepth && ProjectPart(s.calls[p].id).Some?
    requires
      var target := KindIn(s.scripts, s.versions, ProjectPart(s.calls[p].id).value + "__" + moduleName);
      target.Mutation? || target.Action?
    ensures RunXAllowed(s, p, moduleName) <==> s.calls[p].id !in s.scripts
  {
    assert CallOk(s, p);
  }

  /** Which calls of a query go through: those within the depth bound to a function of its project the table holds,
      of any kind once the query's own id has left the table, and else of any kind but a mutation or an action. */
  lemma QueryCallsIff<Op>(s: State<Op>, p: nat, moduleName: string)
    requires Inv(s) && FixedKinds(s) && p < |s.calls| && s.calls[p].kind.Query? && ProjectPart(s.calls[p].id).Some?
    ensures
      var target := ProjectPart(s.calls[p].id).value + "__" + moduleName;
      var kind := KindIn(s.scripts, s.versions, target);
      RunXAllowed(s, p, moduleName) <==>
        && moduleName != "" && s.calls[p].depth < s.maxDepth && target in s.scripts
        && (s.calls[p].id !in s.scripts || (!kind.Mutation? && !kind.Action?))
  {
    assert CallOk(s, p);
  }

  /** Each typed hop adds one to the depth, so a path from depth 0 has at most maxDepth of them. */
  lemma {:induction false} DepthBoundsHops<Op>(s: State<Op>, a: nat, c: nat)
    requires OriginsOk(s) && a < |s.calls| && c < |s.calls| && Beneath(s, a, c) && TypedBelow(s, a, c)
    ensures s.calls[c].depth == s.calls[a].depth + HopsBetween(s, a, c)
    ensures HopsBetween(s, a, c) > 0 ==> s.calls[a].depth + HopsBetween(s, a, c) <= s.maxDepth
    ensures s.calls[a].depth == 0 ==> HopsBetween(s, a, c) <= s.maxDepth
    decreases c
  {
    if c != a {
      DepthBoundsHops(s, a, Caller(s, c));
      assert OriginOk(s, c);
    }
  }

  /** The measure maxDepth - depth goes down by one on a nested call to a typed target; any other starts again from 0, so
      there it goes down only for a caller whose depth was negative. */
  lemma HopCostsDepthIffTyped<Op>(s: State<Op>, c: nat)
    requires Inv(s) && OriginsOk(s) && c < |s.calls| && s.calls[c].origin.Some?
    ensures s.calls[c].depth == if IsTyped(s.calls[c].kind) then s.calls[Caller(s, c)].depth + 1 else 0
    ensures s.maxDepth - s.calls[c].depth < s.maxDepth - s.calls[Caller(s, c)].depth <==>
      IsTyped(s.calls[c].kind) || s.calls[Caller(s, c)].depth < 0
  {
    assert OriginOk(s, c);
  }

  /** A callee is handed a ref exactly when both ends are mutations and the script table still held the caller's id,
      and then it is its caller's. */
  lemma RefPassesBetweenMutations<Op>(s: State<Op>, c: nat)
    requires Inv(s) && OriginsOk(s) && FixedKinds(s) && c < |s.calls| && s.calls[c].origin.Some?
    ensures s.calls[c].inherited != "" <==>
      s.calls[Caller(s, c)].kind.Mutation? && s.calls[c].kind.Mutation? && !s.calls[c].origin.value.seenKind.NoKind?
    ensures s.calls[c].inherited != "" ==> s.calls[c].inherited == s.calls[Caller(s, c)].ref
  {
    SeenKindIsOwn(s, c);
    assert OriginOk(s, c);
    assert ScopeOk(s.trace, s.calls[Caller(s, c)]);
  }

  /** Which calls hand a ref on, told before the call: those from a mutation to a mutation while the table holds the
      caller's id. */
  lemma RefIsHandedOnIff<Op>(s: State<Op>, p: nat, moduleName: string)
    requires Inv(s) && FixedKinds(s) && p < |s.calls| && RunXAllowed(s, p, moduleName)
    ensures
      var (v, inherited, seen) := RunXTarget(s, p, moduleName);
      && (inherited != "" <==> s.calls[p].kind.Mutation? && s.versions[v].kind.Mutation? && s.calls[p].id in s.scripts)
      && (inherited != "" ==> inherited == s.calls[p].ref)
  {
    assert CallOk(s, p) && ScopeOk(s.trace, s.calls[p]);
    hide ProjectPart, NewRef, Inv;
  }

  /** Scope chains follow call paths: a nested call's scope has a parent exactly when it was handed its
      caller's ref and the caller's scope was still live, and the parent is the caller's scope. */
  lemma ScopeChainFollowsCalls<Op>(s: State<Op>, c: nat)
    requires Inv(s) && OriginsOk(s) && c < |s.calls| && s.calls[c].origin.Some?
    ensures s.calls[c].openedAt < |s.trace| && s.trace[s.calls[c].openedAt].Open?
    ensures s.calls[Caller(s, c)].openedAt < |s.trace| && s.trace[s.calls[Caller(s, c)].openedAt].Open?
    ensures
      var (i, j) := (s.calls[c].openedAt, s.calls[Caller(s, c)].openedAt);
      && (Parent(s.trace, i).Some? <==> s.calls[c].inherited != "" && EndOf(s.trace, j, i).None?)
      && (Parent(s.trace, i).Some? ==> Parent(s.trace, i) == Some(j))
  {
    assert OriginOk(s, c);
    var p := Caller(s, c);
    assert ScopeOk(s.trace, s.calls[c]) && ScopeOk(s.trace, s.calls[p]);
    var (t, i, j) := (s.trace, s.calls[c].openedAt, s.calls[p].openedAt);
    if s.calls[c].inherited != "" {
      Laws.LiveScopeExact(t, i, s.calls[p].ref, j);
      if LiveScope(t, i, s.calls[p].ref).Some? {
        Laws.SameRef(t, LiveScope(t, i, s.calls[p].ref).value, j);
      }
    }
  }

  /** On the way from a down to c every call opened with a parent. */
  ghost predicate ScopedBelow<Op>(s: State<Op>, a: nat, c: nat)
    requires Inv(s) && OriginsOk(s) && c < |s.calls| && Beneath(s, a, c)
    decreases c
  {
    c == a || (OpenedWithParent(s, c) && ScopedBelow(s, a, Caller(s, c)))
  }

  ghost predicate OpenedWithParent<Op>(s: State<Op>, c: nat)
    requires c < |s.calls|
  {
    var i := s.calls[c].openedAt;
    i < |s.trace| && s.trace[i].Open? && Parent(s.trace, i).Some?
  }

  /** Along such a path the scopes are an ancestry. */
  lemma {:induction false} ScopesAlongPath<Op>(s: State<Op>, a: nat, c: nat)
    requires Inv(s) && OriginsOk(s) && a < |s.calls| && c < |s.calls| && Beneath(s, a, c) && ScopedBelow(s, a, c)
    ensures s.calls[c].openedAt < |s.trace| && s.trace[s.calls[c].openedAt].Open?
    ensures s.calls[a].openedAt in Ancestry(s.trace, s.calls[c].openedAt)
    decreases c
  {
    if c == a {
      OnTrace(s, c);
    } else {
      hide Inv, OriginsOk, Parent;
      var p := Caller(s, c);
      ScopesAlongPath(s, a, p);
      ScopeChainFollowsCalls(s, c);
      assert Ancestry(s.trace, s.calls[c].openedAt) == [s.calls[c].openedAt] + Ancestry(s.trace, s.calls[p].openedAt);
    }
  }

  lemma OnTrace<Op>(s: State<Op>, c: nat)
    requires Inv(s) && c < |s.calls|
    ensures s.calls[c].openedAt < |s.trace| && s.trace[s.calls[c].openedAt].Open?
    ensures s.calls[c].openedAt in Ancestry(s.trace, s.calls[c].openedAt)
  {
    assert ScopeOk(s.trace, s.calls[c]);
  }

  /** If a mutation fails, nothing is ever sent that was scheduled by a mutation beneath it, on a path along which every
      call joined its caller's scope. */
  lemma FailureReachesDown<Op>(s: State<Op>, inputs: seq<Input<Op>>, a: nat, c: nat, k: nat, n: nat)
    requires Inv(s) && a < |s.calls| && s.calls[a].ref != "" && s.calls[a].answer.Some? && !Succeeds(s.calls[a].answer.value)
    requires
      var after := After(s, inputs);
      && Inv(after) && OriginsOk(after) && c < |after.calls| && Beneath(after, a, c) && ScopedBelow(after, a, c)
      && k < |after.trace| && HoldScope(after.trace, k) == Some(after.calls[c].openedAt)
    ensures
      var after := After(s, inputs);
      n in Run(after.trace, |after.trace|).sent ==> Held(k, after.trace[k].op) !in Run(after.trace, |after.trace|).sent[n]
  {
    hide Inv, OriginsOk, Beneath, ScopedBelow, HoldScope, After, Ancestry;
    var after := After(s, inputs);
    InvocationSettlesOnce(s, inputs, a);
    ScopesAlongPath(after, a, c);
    FailureSendsNothing(s, inputs, a, k, n);
  }

  /** An activation has a scope exactly when it runs a mutation or was handed the ref of a scope that was live; a
      nested call that is no mutation never has one. Without a scope its ctx.scheduler calls go out at once, under
      its own project, and no scope ever holds them. */
  lemma OnlyMutationsHold<Op>(s: State<Op>, c: nat, op: Op)
    requires Inv(s) && OriginsOk(s) && c < |s.calls|
    ensures s.calls[c].openedAt < |s.trace| && s.trace[s.calls[c].openedAt].Open?
    ensures s.calls[c].ref != "" <==> s.calls[c].kind.Mutation? || Parent(s.trace, s.calls[c].openedAt).Some?
    ensures s.calls[c].origin.Some? ==> (s.calls[c].ref != "" <==> s.calls[c].kind.Mutation?)
    ensures s.calls[c].ref == "" ==> Next(s, Schedules(c, op)).trace == s.trace
    ensures s.calls[c].ref == "" && (IsTyped(s.calls[c].kind) || IsHttp(s.calls[c].kind)) && ProjectPart(s.calls[c].id).Some? ==>
      Next(s, Schedules(c, op)).direct == s.direct + [(s.calls[c].projectId, op)]
  {
    hide Inv, OriginsOk, Next, ProjectPart, Parent;
    ScopeOfCall(s, c);
    if s.calls[c].ref == "" { UnscopedSchedule(s, c, op); }
    if ProjectPart(s.calls[c].id).Some? { ProjectIsPart(s, c); }
  }

  lemma ScopeOfCall<Op>(s: State<Op>, c: nat)
    requires Inv(s) && OriginsOk(s) && c < |s.calls|
    ensures s.calls[c].openedAt < |s.trace| && s.trace[s.calls[c].openedAt].Open?
    ensures s.calls[c].ref != "" <==> s.calls[c].kind.Mutation? || Parent(s.trace, s.calls[c].openedAt).Some?
    ensures s.calls[c].origin.Some? ==> (s.calls[c].ref != "" <==> s.calls[c].kind.Mutation?)
  {
    hide TablesOk, StagesOk, MetricsOk, Parent, EndOf, WellFormed;
    assert OriginOk(s, c);
    assert ScopeOk(s.trace, s.calls[c]);
    if s.calls[c].origin.Some? { ScopeChainFollowsCalls(s, c); }
  }

  lemma UnscopedSchedule<Op>(s: State<Op>, c: nat, op: Op)
    requires c < |s.calls| && s.calls[c].ref == ""
    ensures Next(s, Schedules(c, op)).trace == s.trace
    ensures (IsTyped(s.calls[c].kind) || IsHttp(s.calls[c].kind)) && ProjectPart(s.calls[c].id).Some? ==>
      Next(s, Schedules(c, op)).direct == s.direct + [(ProjectPart(s.calls[c].id).value, op)]
  {
    hide ProjectPart, RunXStep, StartCall, SettleStep, CrashStep, ResumeStep, SendEndStep, Sending;
  }

  // ---------------------------------------------------------------- how a query gets out

  ghost predicate Reaches<Op(!new)>(s: State<Op>, t: State<Op>) {
    exists inputs :: t == After(s, inputs)
  }

  lemma ReachesNext<Op(!new)>(s: State<Op>, t: State<Op>, e: Input<Op>)
    requires Reaches(s, t)
    ensures Reaches(s, Next(t, e))
  {
    hide Next;
    var inputs :| t == After(s, inputs);
    AfterOneMore(s, inputs, e);
  }

  /** A deploy with room in the table. */
  lemma Deploys<Op(!new)>(s: State<Op>, id: string, kind: Kind)
    requires |s.scripts| < MAX_SCRIPTS
    ensures
      var t := Next(Next(s, DeployStarts(id)), DeployReady(s.nextDeploy, kind));
      && Reaches(s, t)
      && t.scripts == s.scripts[id := |s.versions|] && t.versions == s.versions + [Version(id, kind, 1, map[])]
      && t.calls == s.calls && t.trace == s.trace && t.maxDepth == s.maxDepth
  {
    hide RunXStep, StartCall, SettleStep, CrashStep, ResumeStep, SendEndStep, ScheduleStep, Sending;
    assert s == After(s, []) && Reaches(s, s);
    ReachesNext(s, s, DeployStarts(id));
    ReachesNext(s, Next(s, DeployStarts(id)), DeployReady(s.nextDeploy, kind));
  }

  lemma ReachesTwice<Op(!new)>(s: State<Op>, t: State<Op>, e: Input<Op>, f: Input<Op>)
    requires Reaches(s, t)
    ensures Reaches(s, Next(Next(t, e), f))
  {
    hide Next, Reaches;
    ReachesNext(s, t, e);
    ReachesNext(s, Next(t, e), f);
  }

  /** The first call on a version, from outside. */
  lemma FirstCallStarts<Op>(s: State<Op>, q: string, kind: Kind, v: nat, uuid: string)
    requires q in s.scripts && s.scripts[q] == v < |s.versions| && Unused(s.trace, uuid) && IsTyped(kind)
    requires s.versions[v] == Version(q, kind, 1, map[])
    ensures
      var t := Next(s, Invokes(q, "", 0, 0, uuid));
      && t.scripts == s.scripts && t.maxDepth == s.maxDepth
      && t.versions == s.versions[v := Version(q, kind, 2, map[1 := |s.calls|])]
      && t.calls == s.calls + [Call(v, q, kind, 1, ProjectOf(q), "", if kind.Mutation? then NewRef(uuid) else "", |s.trace|,
                                    0, None, None, None, None)]
      && t.trace == s.trace + [Open(kind, "", ProjectOf(q), uuid)]
  {
    hide RunXStep, SettleStep, CrashStep, ResumeStep, SendEndStep, ScheduleStep, Sending, ProjectOf, NewRef;
    var trace := s.trace + [Open(kind, "", ProjectOf(q), uuid)];
    assert Parent(trace, |s.trace|).None? && (Starts(trace, |s.trace|) <==> kind.Mutation?);
  }

  /** The last request on a version times out. */
  lemma LastRequestTimesOut<Op>(s: State<Op>, v: nat, c: nat)
    requires v < |s.versions| && c < |s.calls| && s.versions[v].pending == map[1 := c]
    ensures
      var t := Next(s, TimesOut(v, 1));
      && t.scripts == s.scripts - {s.versions[v].id} && t.maxDepth == s.maxDepth && t.trace == s.trace
      && t.versions == s.versions[v := s.versions[v].(pending := map[])]
      && t.calls == s.calls[c := s.calls[c].(answer := t.calls[c].answer)]
  {
    hide RunXStep, StartCall, CrashStep, ResumeStep, SendEndStep, ScheduleStep, Sending;
    assert s.versions[v].pending - {1} == map[];
  }

  /** A running query whose id is gone from the table calls a mutation. */
  lemma EvictedCall<Op>(s: State<Op>, p: nat, moduleName: string, uuid: string)
    requires p < |s.calls| && s.calls[p].kind.Query? && s.calls[p].depth == 0 < s.maxDepth && Unused(s.trace, uuid)
    requires moduleName != "" && ProjectPart(s.calls[p].id).Some? && s.calls[p].id !in s.scripts
    requires
      var m := ProjectPart(s.calls[p].id).value + "__" + moduleName;
      m in s.scripts && s.scripts[m] < |s.versions| && s.versions[s.scripts[m]].kind.Mutation?
    ensures
      var t := Next(s, RunX(p, moduleName, uuid));
      && |t.calls| == |s.calls| + 1 && t.calls[..|s.calls|] == s.calls && VersionsGrow(s, t)
      && |t.versions| == |s.versions|
      && t.calls[|s.calls|].kind.Mutation? && t.calls[|s.calls|].origin == Some(Origin(p, NoKind))
  {
    hide SettleStep, CrashStep, ResumeStep, SendEndStep, ScheduleStep, Sending, ProjectOf, ProjectPart, NewRef;
  }

  /** A mutation deployed once; a function deployed, called, deployed again and called again, both calls running. */
  lemma TwoRunningVersions<Op(!new)>(maxDepth: nat, q: string, m: string, kind: Kind) returns (s: State<Op>)
    requires q != m && IsTyped(kind)
    ensures Reaches(Init(maxDepth), s)
    ensures s.scripts == map[m := 0, q := 2] && s.maxDepth == maxDepth && |s.calls| == 2
    ensures s.versions == [Version(m, Mutation, 1, map[]), Version(q, kind, 2, map[1 := 0]), Version(q, kind, 2, map[1 := 1])]
    ensures s.calls[1] == Call(2, q, kind, 1, ProjectOf(q), "", if kind.Mutation? then NewRef("2") else "", 1, 0, None, None, None, None)
    ensures s.trace == [Open(kind, "", ProjectOf(q), "1"), Open(kind, "", ProjectOf(q), "2")]
  {
    hide Next, ProjectPart, ProjectOf, NewRef, Reaches;
    var s0 := Init<Op>(maxDepth);
    Deploys(s0, m, Mutation);
    var s1 := Next(Next(s0, DeployStarts(m)), DeployReady(s0.nextDeploy, Mutation));
    Deploys(s1, q, kind);
    ReachesTwice(s0, s1, DeployStarts(q), DeployReady(s1.nextDeploy, kind));
    var s2 := Next(Next(s1, DeployStarts(q)), DeployReady(s1.nextDeploy, kind));
    FirstCallStarts(s2, q, kind, 1, "1");
    ReachesNext(s0, s2, Invokes(q, "", 0, 0, "1"));
    var s3 := Next(s2, Invokes(q, "", 0, 0, "1"));
    Deploys(s3, q, kind);
    ReachesTwice(s0, s3, DeployStarts(q), DeployReady(s3.nextDeploy, kind));
    var s4 := Next(Next(s3, DeployStarts(q)), DeployReady(s3.nextDeploy, kind));
    FirstCallStarts(s4, q, kind, 2, "2");
    ReachesNext(s0, s4, Invokes(q, "", 0, 0, "2"));
    s := Next(s4, Invokes(q, "", 0, 0, "2"));
  }

  /** When the call on the query's old version times out, the id leaves the table although the new version runs, and
      the query then running may call the mutation. */
  lemma EvictedQueryRunsMutation<Op(!new)>(maxDepth: nat, q: string, moduleName: string) returns (s: State<Op>)
    requires maxDepth > 0 && ProjectPart(q).Some? && moduleName != "" && q != ProjectPart(q).value + "__" + moduleName
    ensures Reaches(Init(maxDepth), s)
    ensures FixedKinds(s) && |s.calls| == 3
    ensures s.calls[1].kind.Query? && s.calls[2].kind.Mutation? && s.calls[2].origin == Some(Origin(1, NoKind))
  {
    hide Next, ProjectPart, ProjectOf, NewRef, Reaches;
    var running := TwoRunningVersions<Op>(maxDepth, q, ProjectPart(q).value + "__" + moduleName, Query);
    LastRequestTimesOut(running, 1, 0);
    ReachesNext(Init(maxDepth), running, TimesOut(1, 1));
    var evicted := Next(running, TimesOut(1, 1));
    EvictedCall(evicted, 1, moduleName, "3");
    ReachesNext(Init(maxDepth), evicted, RunX(1, moduleName, "3"));
    s := Next(evicted, RunX(1, moduleName, "3"));
  }
}
