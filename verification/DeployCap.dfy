/** The cap on deployed functions, which deploy checks before it waits for the worker and not after. */
module DeployCap {
  import opened NestedTransactions
  import opened MutationScopes
  import opened RuntimeModel
  import opened RuntimeInvariants

  /** At no point of the run are more than k deploys in flight. */
  ghost predicate Overlap<Op>(s: State<Op>, inputs: seq<Input<Op>>, k: nat)
    decreases |inputs|
  {
    |s.deploys| <= k && (inputs != [] ==> Overlap(Next(s, inputs[0]), inputs[1..], k))
  }

  /** Ids that are deployed or on their way. */
  ghost function Claimed<Op>(s: State<Op>): set<string> {
    s.scripts.Keys + s.deploys.Values
  }

  lemma {:induction false} SubsetSize<T>(a: set<T>, b: set<T>)
    requires a <= b
    ensures |a| <= |b|
    decreases |a|
  {
    if a != {} {
      var x :| x in a;
      SubsetSize(a - {x}, b - {x});
    }
  }

  lemma {:induction false} ValuesSize(m: map<nat, string>)
    ensures |m.Values| <= |m|
    decreases |m|
  {
    if m.Keys != {} {
      var key :| key in m.Keys;
      var rest := m - {key};
      assert m.Keys == rest.Keys + {key};
      assert m.Values <= rest.Values + {m[key]};
      ValuesSize(rest);
      SubsetSize(m.Values, rest.Values + {m[key]});
    } else {
      assert m.Values == {};
    }
  }

  lemma StartClaims<Op>(s: State<Op>, id: string, k: nat)
    requires |Claimed(s)| <= MAX_SCRIPTS - 1 + k && |Next(s, DeployStarts(id)).deploys| <= k
    ensures |Claimed(Next(s, DeployStarts(id)))| <= MAX_SCRIPTS - 1 + k
  {
    var after := Next(s, DeployStarts(id));
    if id in s.scripts {
      SubsetSize(Claimed(after), Claimed(s));
    } else if |s.scripts| < MAX_SCRIPTS {
      ValuesSize(after.deploys);
      assert |s.scripts.Keys + after.deploys.Values| <= |s.scripts.Keys| + |after.deploys.Values|;
    }
  }

  /** Only a deploy that starts claims an id. */
  lemma OthersClaimNothing<Op>(s: State<Op>, e: Input<Op>)
    requires !e.DeployStarts?
    ensures Claimed(Next(s, e)) <= Claimed(s)
  {
    hide RunXAllowed, RunXTarget, ProjectPart, ProjectOf, KindIn, Starts, SentBy, LostBy, IsFailure;
    assert Next(s, e).deploys.Values <= s.deploys.Values by { OthersDeployNothing(s, e); }
  }

  lemma OthersDeployNothing<Op>(s: State<Op>, e: Input<Op>)
    requires !e.DeployStarts?
    ensures Next(s, e).deploys.Values <= s.deploys.Values
    ensures e.DeployReady? && e.token in s.deploys ==> s.deploys[e.token] in s.deploys.Values
  {
    hide RunXAllowed, RunXTarget, ProjectPart, ProjectOf, KindIn, Starts, SentBy, LostBy, IsFailure;
    if e.DeployReady? || e.DeployFails? {
      forall id | id in Next(s, e).deploys.Values ensures id in s.deploys.Values {
        var token :| token in Next(s, e).deploys && Next(s, e).deploys[token] == id;
        assert token in s.deploys && s.deploys[token] == id;
      }
    } else {
      assert Next(s, e).deploys == s.deploys;
    }
  }

  lemma NextClaims<Op>(s: State<Op>, e: Input<Op>, k: nat)
    requires |Claimed(s)| <= MAX_SCRIPTS - 1 + k && |Next(s, e).deploys| <= k
    ensures |Claimed(Next(s, e))| <= MAX_SCRIPTS - 1 + k
  {
    if e.DeployStarts? {
      StartClaims(s, e.id, k);
    } else {
      hide Next;
      OthersClaimNothing(s, e);
      SubsetSize(Claimed(Next(s, e)), Claimed(s));
    }
  }

  /** With at most k deploys in flight at once, every run keeps the table within the cap less one plus k:
      the stated cap when deploys never overlap. */
  lemma {:induction false} ScriptsStayWithinCap<Op>(s: State<Op>, inputs: seq<Input<Op>>, k: nat)
    requires |Claimed(s)| <= MAX_SCRIPTS - 1 + k && Overlap(s, inputs, k)
    ensures |After(s, inputs).scripts| <= MAX_SCRIPTS - 1 + k
    decreases |inputs|
  {
    if inputs == [] {
      SubsetSize(s.scripts.Keys, Claimed(s));
    } else {
      assert Overlap(Next(s, inputs[0]), inputs[1..], k);
      NextClaims(s, inputs[0], k);
      ScriptsStayWithinCap(Next(s, inputs[0]), inputs[1..], k);
    }
  }

  lemma CapHolds<Op>(maxDepth: nat, inputs: seq<Input<Op>>, k: nat)
    requires Overlap(Init(maxDepth), inputs, k)
    ensures |After(Init(maxDepth), inputs).scripts| <= 99 + k
  {
    assert Claimed(Init<Op>(maxDepth)) == {};
    ScriptsStayWithinCap(Init(maxDepth), inputs, k);
  }

  // ---------------------------------------------------------------- the bound is reached

  /** An id of n characters. */
  function Id(n: nat): (id: string)
    ensures |id| == n
  {
    seq(n, i requires 0 <= i < n => 'a')
  }

  /** Deploys in flight have tokens already drawn and distinct new ids, and no id has reached length n. */
  ghost predicate Spaced<Op>(s: State<Op>, n: nat) {
    && (forall token :: token in s.deploys ==> token < s.nextDeploy && s.deploys[token] !in s.scripts)
    && (forall a, b :: a in s.deploys && b in s.deploys && s.deploys[a] == s.deploys[b] ==> a == b)
    && (forall token :: token in s.deploys ==> |s.deploys[token]| < n)
    && (forall id :: id in s.scripts ==> |id| < n)
  }

  lemma StartOne<Op>(s: State<Op>, n: nat)
    requires Spaced(s, n) && |s.scripts| < MAX_SCRIPTS
    ensures
      var after := Next(s, DeployStarts(Id(n)));
      Spaced(after, n + 1) && after.scripts == s.scripts && |after.deploys| == |s.deploys| + 1
      && after.deploys == s.deploys[s.nextDeploy := Id(n)]
  {
    hide RunXStep, StartCall, SettleStep, CrashStep, ResumeStep, SendEndStep, ScheduleStep, Sending;
  }

  lemma FinishOne<Op>(s: State<Op>, n: nat, token: nat)
    requires Spaced(s, n) && token in s.deploys
    ensures
      var after := Next(s, DeployReady(token, NoKind));
      Spaced(after, n) && |after.scripts| == |s.scripts| + 1 && |after.deploys| == |s.deploys| - 1
  {
    hide Next;
    FinishEffect(s, token);
    Grows(s.scripts, s.deploys[token], |s.versions|);
    Shrinks(s.deploys, token);
  }

  lemma Grows<K, V>(m: map<K, V>, key: K, value: V)
    requires key !in m
    ensures |m[key := value]| == |m| + 1
  {
    assert m[key := value].Keys == m.Keys + {key};
  }

  lemma Shrinks<K, V>(m: map<K, V>, key: K)
    requires key in m
    ensures |m - {key}| == |m| - 1
  {
    assert (m - {key}).Keys == m.Keys - {key};
  }

  lemma FinishEffect<Op>(s: State<Op>, token: nat)
    requires token in s.deploys
    ensures
      var after := Next(s, DeployReady(token, NoKind));
      && after.scripts == s.scripts[s.deploys[token] := |s.versions|]
      && after.deploys == s.deploys - {token} && after.nextDeploy == s.nextDeploy
  {
    hide RunXStep, StartCall, SettleStep, CrashStep, ResumeStep, SendEndStep, ScheduleStep, Sending;
  }

  /** A run that begins with one input. */
  lemma AfterFirst<Op>(s: State<Op>, e: Input<Op>, rest: seq<Input<Op>>, k: nat)
    ensures After(s, [e] + rest) == After(Next(s, e), rest)
    ensures |s.deploys| <= k && Overlap(Next(s, e), rest, k) ==> Overlap(s, [e] + rest, k)
  {
    hide Next;
    assert ([e] + rest)[1..] == rest;
  }

  /** Functions deployed one after the other, from n of them to m. */
  lemma {:induction false} DeployInTurn<Op>(s: State<Op>, n: nat, m: nat, k: nat) returns (inputs: seq<Input<Op>>)
    requires n <= m < MAX_SCRIPTS && k > 0 && Spaced(s, n) && |s.scripts| == n && |s.deploys| == 0
    ensures Overlap(s, inputs, k)
    ensures var t := After(s, inputs); Spaced(t, m) && |t.scripts| == m && |t.deploys| == 0
    decreases m - n
  {
    hide Next, Spaced;
    if n == m { return []; }
    var started := Next(s, DeployStarts(Id(n)));
    StartOne(s, n);
    var token := s.nextDeploy;
    var ready := Next(started, DeployReady(token, NoKind));
    FinishOne(started, n + 1, token);
    var rest := DeployInTurn(ready, n + 1, m, k);
    AfterFirst(started, DeployReady(token, NoKind), rest, k);
    AfterFirst(s, DeployStarts(Id(n)), [DeployReady(token, NoKind)] + rest, k);
    inputs := [DeployStarts(Id(n))] + ([DeployReady(token, NoKind)] + rest);
  }

  /** j more deploys started while none finishes, then all of them finished. */
  lemma {:induction false} DeployTogether<Op>(s: State<Op>, n: nat, j: nat, k: nat) returns (inputs: seq<Input<Op>>)
    requires Spaced(s, n) && |s.scripts| < MAX_SCRIPTS && |s.deploys| + j <= k
    ensures Overlap(s, inputs, k)
    ensures |After(s, inputs).scripts| == |s.scripts| + |s.deploys| + j
    decreases j
  {
    hide Next, Spaced;
    if j == 0 {
      inputs := FinishAll(s, n, k);
    } else {
      var started := Next(s, DeployStarts(Id(n)));
      StartOne(s, n);
      var rest := DeployTogether(started, n + 1, j - 1, k);
      AfterFirst(s, DeployStarts(Id(n)), rest, k);
      inputs := [DeployStarts(Id(n))] + rest;
    }
  }

  lemma {:induction false} FinishAll<Op>(s: State<Op>, n: nat, k: nat) returns (inputs: seq<Input<Op>>)
    requires Spaced(s, n) && |s.deploys| <= k
    ensures Overlap(s, inputs, k)
    ensures |After(s, inputs).scripts| == |s.scripts| + |s.deploys|
    decreases |s.deploys|
  {
    hide Next, Spaced;
    if |s.deploys| == 0 { return []; }
    var token :| token in s.deploys;
    var ready := Next(s, DeployReady(token, NoKind));
    FinishOne(s, n, token);
    var rest := FinishAll(ready, n, k);
    AfterFirst(s, DeployReady(token, NoKind), rest, k);
    inputs := [DeployReady(token, NoKind)] + rest;
  }

  lemma {:induction false} OverlapOfBoth<Op>(s: State<Op>, first: seq<Input<Op>>, second: seq<Input<Op>>, k: nat)
    requires Overlap(s, first, k) && Overlap(After(s, first), second, k)
    ensures Overlap(s, first + second, k)
    decreases |first|
  {
    hide Next;
    if first == [] {
      assert first + second == second;
    } else {
      assert (first + second)[0] == first[0] && (first + second)[1..] == first[1..] + second;
      OverlapOfBoth(Next(s, first[0]), first[1..], second, k);
    }
  }

  /** For every k > 0 some run that overlaps at most k deploys does reach the bound, so two deploys at once
      already take the table past its stated cap. */
  lemma CapIsReached<Op>(maxDepth: nat, k: nat)
    requires k > 0
    ensures exists inputs: seq<Input<Op>> ::
      Overlap(Init(maxDepth), inputs, k) && |After(Init(maxDepth), inputs).scripts| == 99 + k
  {
    hide Next, After, Overlap;
    var init := Init<Op>(maxDepth);
    var first := DeployInTurn(init, 0, MAX_SCRIPTS - 1, k);
    var second := DeployTogether(After(init, first), MAX_SCRIPTS - 1, k, k);
    OverlapOfBoth(init, first, second, k);
    AfterBoth(init, first, second);
  }
}
