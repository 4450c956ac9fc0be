/** What nested calls through HTTP functions get around: the depth bound and the read-only matrix. */
module HttpCalls {
  import opened Wrappers
  import opened NestedTransactions
  import opened RuntimeModel
  import opened RuntimeInvariants
  import opened CallTrees
  import opened DeployCap

  /** A step that starts one activation and leaves the script table as it was. */
  ghost predicate Starting<Op>(s: State<Op>, t: State<Op>, v: nat, uuid: string, origin: Option<Origin>)
    requires v < |s.versions|
  {
    && t.scripts == s.scripts && t.maxDepth == s.maxDepth
    && |t.versions| == |s.versions| && VersionsGrow(s, t)
    && |t.calls| == |s.calls| + 1 && t.calls[..|s.calls|] == s.calls
    && t.calls[|s.calls|].id == s.versions[v].id && t.calls[|s.calls|].kind == s.versions[v].kind
    && t.calls[|s.calls|].origin == origin
    && |t.trace| == |s.trace| + 1 && t.trace[..|s.trace|] == s.trace
    && t.trace[|s.trace|].Open? && t.trace[|s.trace|].uuid == uuid
  }

  /** A call from outside, at depth 0. */
  lemma Invoked<Op>(s: State<Op>, id: string, uuid: string)
    requires id in s.scripts && s.scripts[id] < |s.versions| && Unused(s.trace, uuid)
    ensures
      var t := Next(s, Invokes(id, "", 0, 0, uuid));
      Starting(s, t, s.scripts[id], uuid, None) && t.calls[|s.calls|].depth == 0
  {
    hide RunXStep, SettleStep, CrashStep, ResumeStep, SendEndStep, ScheduleStep, ProjectOf, NewRef, Starts;
  }

  /** A nested call that passes its checks; an HTTP target starts from depth 0. */
  lemma Called<Op>(s: State<Op>, p: nat, moduleName: string, uuid: string)
    requires p < |s.calls| && RunXAllowed(s, p, moduleName) && Unused(s.trace, uuid)
    ensures
      var t := Next(s, RunX(p, moduleName, uuid));
      var v := s.scripts[ProjectPart(s.calls[p].id).value + "__" + moduleName];
      && Starting(s, t, v, uuid, Some(Origin(p, KindIn(s.scripts, s.versions, s.calls[p].id))))
      && (IsHttp(s.versions[v].kind) ==> t.calls[|s.calls|].depth == 0)
  {
    hide SettleStep, CrashStep, ResumeStep, SendEndStep, ScheduleStep, ProjectOf, NewRef, Starts, MatrixAllows;
  }

  // ---------------------------------------------------------------- no bound on HTTP hops

  /** One HTTP function is deployed, and call 0 on it has led to n more, each made by the one before. */
  ghost predicate Chained<Op>(s: State<Op>, h: string, n: nat) {
    && s.scripts == map[h := 0] && |s.versions| == 1
    && s.versions[0].id == h && s.versions[0].kind.HttpAction?
    && |s.calls| == n + 1
    && (forall c :: 0 <= c <= n ==> s.calls[c].id == h && s.calls[c].kind.HttpAction? && s.calls[c].depth == 0)
    && (forall c :: 0 < c <= n ==> s.calls[c].origin == Some(Origin(c - 1, HttpAction)))
    && (forall i :: 0 <= i < |s.trace| && s.trace[i].Open? ==> |s.trace[i].uuid| <= n)
  }

  lemma FirstOfChain<Op(!new)>(maxDepth: nat, h: string) returns (s: State<Op>)
    ensures Reaches(Init(maxDepth), s) && Chained(s, h, 0) && s.maxDepth == maxDepth
  {
    hide Next, Reaches, ProjectPart;
    var init := Init<Op>(maxDepth);
    Deploys(init, h, HttpAction);
    var deployed := Next(Next(init, DeployStarts(h)), DeployReady(init.nextDeploy, HttpAction));
    Invoked(deployed, h, Id(0));
    ReachesNext(init, deployed, Invokes(h, "", 0, 0, Id(0)));
    s := Next(deployed, Invokes(h, "", 0, 0, Id(0)));
  }

  lemma OneMoreInChain<Op(!new)>(s: State<Op>, h: string, moduleName: string, n: nat)
    requires Chained(s, h, n) && s.maxDepth >= 1
    requires ProjectPart(h).Some? && moduleName != "" && h == ProjectPart(h).value + "__" + moduleName
    ensures
      var t := Next(s, RunX(n, moduleName, Id(n + 1)));
      Chained(t, h, n + 1) && t.maxDepth == s.maxDepth
  {
    hide Next, ProjectPart;
    var t := Next(s, RunX(n, moduleName, Id(n + 1)));
    Called(s, n, moduleName, Id(n + 1));
    forall c | 0 <= c <= n ensures t.calls[c] == s.calls[c] { assert t.calls[..n + 1][c] == t.calls[c]; }
    forall i | 0 <= i < |s.trace| ensures t.trace[i] == s.trace[i] { assert t.trace[..|s.trace|][i] == t.trace[i]; }
  }

  lemma {:induction false} HttpChain<Op(!new)>(maxDepth: nat, h: string, moduleName: string, n: nat) returns (s: State<Op>)
    requires maxDepth >= 1
    requires ProjectPart(h).Some? && moduleName != "" && h == ProjectPart(h).value + "__" + moduleName
    ensures Reaches(Init(maxDepth), s) && Chained(s, h, n) && s.maxDepth == maxDepth
  {
    hide Next, Reaches, ProjectPart, Chained;
    if n == 0 {
      s := FirstOfChain(maxDepth, h);
    } else {
      var before := HttpChain<Op>(maxDepth, h, moduleName, n - 1);
      OneMoreInChain(before, h, moduleName, n - 1);
      ReachesNext(Init(maxDepth), before, RunX(n - 1, moduleName, Id(n)));
      s := Next(before, RunX(n - 1, moduleName, Id(n)));
    }
  }

  lemma {:induction false} ChainIsOnePath<Op>(s: State<Op>, h: string, n: nat, c: nat)
    requires OriginsOk(s) && Chained(s, h, n) && c <= n
    ensures Beneath(s, 0, c) && HopsBetween(s, 0, c) == c
    decreases c
  {
    if c > 0 {
      assert Caller(s, c) == c - 1;
      ChainIsOnePath(s, h, n, c - 1);
    }
  }

  lemma ReachedTrees<Op(!new)>(maxDepth: nat, s: State<Op>)
    requires Reaches(Init(maxDepth), s)
    ensures Inv(s) && OriginsOk(s)
  {
    hide Inv, OriginsOk, Next;
    var inputs :| s == After(Init(maxDepth), inputs);
    ReachableTrees(maxDepth, inputs);
  }

  /** However small the depth bound, an HTTP function that calls itself makes chains of any length. */
  lemma HttpChainsAreUnbounded<Op(!new)>(maxDepth: nat, h: string, moduleName: string, n: nat) returns (s: State<Op>)
    requires maxDepth >= 1
    requires ProjectPart(h).Some? && moduleName != "" && h == ProjectPart(h).value + "__" + moduleName
    ensures Reaches(Init(maxDepth), s) && s.maxDepth == maxDepth && OriginsOk(s)
    ensures |s.calls| == n + 1 && s.calls[0].depth == 0 && forall c :: 0 <= c <= n ==> s.calls[c].kind.HttpAction?
    ensures Beneath(s, 0, n) && HopsBetween(s, 0, n) == n
  {
    hide Reaches, ProjectPart, Inv, OriginsOk;
    s := HttpChain(maxDepth, h, moduleName, n);
    ReachedTrees(maxDepth, s);
    ChainIsOnePath(s, h, n, n);
  }

  // ---------------------------------------------------------------- from a query to a mutation

  /** A mutation, an HTTP function and a query are deployed, and the query has been called. */
  lemma QueryRuns<Op(!new)>(maxDepth: nat, m: string, w: string, q: string) returns (s: State<Op>)
    requires m != w && m != q && w != q
    ensures Reaches(Init(maxDepth), s) && s.maxDepth == maxDepth
    ensures s.scripts == map[m := 0, w := 1, q := 2] && |s.versions| == 3
    ensures s.versions[0].id == m && s.versions[1].id == w && s.versions[2].id == q
    ensures s.versions[0].kind.Mutation? && s.versions[1].kind.HttpAction? && s.versions[2].kind.Query?
    ensures |s.calls| == 1 && s.calls[0].kind.Query? && s.calls[0].id == q && s.calls[0].depth == 0
    ensures forall i :: 0 <= i < |s.trace| && s.trace[i].Open? ==> s.trace[i].uuid == "1"
  {
    hide Next, Reaches, ProjectPart;
    var s0 := Init<Op>(maxDepth);
    Deploys(s0, m, Mutation);
    var s1 := Next(Next(s0, DeployStarts(m)), DeployReady(s0.nextDeploy, Mutation));
    Deploys(s1, w, HttpAction);
    ReachesTwice(s0, s1, DeployStarts(w), DeployReady(s1.nextDeploy, HttpAction));
    var s2 := Next(Next(s1, DeployStarts(w)), DeployReady(s1.nextDeploy, HttpAction));
    Deploys(s2, q, Query);
    ReachesTwice(s0, s2, DeployStarts(q), DeployReady(s2.nextDeploy, Query));
    var s3 := Next(Next(s2, DeployStarts(q)), DeployReady(s2.nextDeploy, Query));
    Invoked(s3, q, "1");
    ReachesNext(s0, s3, Invokes(q, "", 0, 0, "1"));
    s := Next(s3, Invokes(q, "", 0, 0, "1"));
  }

  /** With every id in the table throughout, a query calls an HTTP function and that calls a mutation. */
  lemma QueryRunsMutationOverHttp<Op(!new)>(maxDepth: nat, q: string, httpModule: string, mutationModule: string)
    returns (s: State<Op>)
    requires maxDepth >= 1 && ProjectPart(q).Some? && httpModule != "" && mutationModule != ""
    requires
      var (w, m) := (ProjectPart(q).value + "__" + httpModule, ProjectPart(q).value + "__" + mutationModule);
      w != m && w != q && m != q
    ensures Reaches(Init(maxDepth), s) && OriginsOk(s) && FixedKinds(s) && |s.calls| == 3
    ensures s.calls[0].kind.Query? && s.calls[1].kind.HttpAction? && s.calls[2].kind.Mutation?
    ensures Beneath(s, 0, 2) && CallersHeld(s, 0, 2) && s.calls[0].id in s.scripts && s.calls[1].id in s.scripts
  {
    hide Next, Reaches, ProjectPart, Inv;
    var project := ProjectPart(q).value;
    var (w, m) := (project + "__" + httpModule, project + "__" + mutationModule);
    var init := Init<Op>(maxDepth);
    var s0 := QueryRuns<Op>(maxDepth, m, w, q);
    Called(s0, 0, httpModule, "2");
    ReachesNext(init, s0, RunX(0, httpModule, "2"));
    var s1 := Next(s0, RunX(0, httpModule, "2"));
    TargetKeepsProject(q, httpModule);
    assert s1.calls[0] == s1.calls[..1][0];
    assert Unused(s1.trace, "3") by {
      forall i | 0 <= i < |s0.trace| ensures s1.trace[i] == s0.trace[i] { assert s1.trace[..|s0.trace|][i] == s1.trace[i]; }
    }
    Called(s1, 1, mutationModule, "3");
    ReachesNext(init, s1, RunX(1, mutationModule, "3"));
    s := Next(s1, RunX(1, mutationModule, "3"));
    assert s.calls[0] == s.calls[..2][0] && s.calls[1] == s.calls[..2][1];
    ReachedTrees(maxDepth, s);
    ThreeCalls(s);
  }

  lemma ThreeCalls<Op>(s: State<Op>)
    requires OriginsOk(s) && |s.calls| == 3
    requires s.calls[1].origin == Some(Origin(0, Query)) && s.calls[2].origin == Some(Origin(1, HttpAction))
    ensures Beneath(s, 0, 2) && CallersHeld(s, 0, 2)
  {
    assert Caller(s, 2) == 1 && Caller(s, 1) == 0;
    assert Beneath(s, 0, 0) && Beneath(s, 0, 1);
    assert CallersHeld(s, 0, 0) && CallersHeld(s, 0, 1);
  }
}
