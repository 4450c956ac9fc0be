/** What the scope table guarantees over every trace. */
module NestedTransactionLaws {
  import opened Wrappers
  import opened NestedTransactions

  // ---------------------------------------------------------------- refs and ends

  lemma NewRefInjective(u: string, v: string)
    requires NewRef(u) == NewRef(v)
    ensures u == v
  {
    assert u == NewRef(u)[1..] && v == NewRef(v)[1..];
  }

  lemma {:induction false} EndStays<Op>(t: Trace<Op>, i: nat, m: nat, n: nat)
    requires i < |t| && t[i].Open? && m <= n <= |t| && EndOf(t, i, m).Some?
    ensures EndOf(t, i, n) == EndOf(t, i, m)
    decreases n
  {
    if m < n { EndStays(t, i, m, n - 1); }
  }

  lemma {:induction false} EndIsFirst<Op>(t: Trace<Op>, i: nat, n: nat)
    requires i < |t| && t[i].Open? && n <= |t| && EndOf(t, i, n).Some?
    ensures EndOf(t, i, EndOf(t, i, n).value).None?
    ensures EndOf(t, i, EndOf(t, i, n).value + 1) == EndOf(t, i, n)
    decreases n
  {
    if EndOf(t, i, n - 1).Some? { EndIsFirst(t, i, n - 1); }
  }

  /** A ref names a scope from the event that starts it up to the first close, and never another one. */
  lemma {:induction false} LiveScopeExact<Op>(t: Trace<Op>, n: nat, ref: Ref, i: nat)
    requires WellFormed(t) && n <= |t|
    ensures LiveScope(t, n, ref) == Some(i) <==>
      i < n && Starts(t, i) && NewRef(t[i].uuid) == ref && EndOf(t, i, n).None?
    decreases n
  {
    if n > 0 {
      LiveScopeExact(t, n - 1, ref, i);
      if t[n - 1].Open? && NewRef(t[n - 1].uuid) == ref && i < n - 1 && t[i].Open? && NewRef(t[i].uuid) == ref {
        NewRefInjective(t[n - 1].uuid, t[i].uuid);
        assert false;
      }
    }
  }

  /** The table has an entry for the ref exactly when it names a live scope, with that scope's project and
      fixed parent. */
  ghost predicate Tracked<Op>(t: Trace<Op>, n: nat, ref: Ref)
    requires n <= |t|
  {
    && (ref in Run(t, n).scopes <==> LiveScope(t, n, ref).Some?)
    && (ref in Run(t, n).scopes ==>
          var i := LiveScope(t, n, ref).value;
          var scope := Run(t, n).scopes[ref];
          && scope.projectId == t[i].projectId
          && scope.parentRef == (match Parent(t, i) case None => None case Some(p) => Some(NewRef(t[p].uuid))))
  }

  lemma TrackedAtOpen<Op>(t: Trace<Op>, n: nat, ref: Ref)
    requires n < |t| && t[n].Open? && Tracked(t, n, ref) && Tracked(t, n, t[n].parentRef)
    ensures Tracked(t, n + 1, ref)
  {
    hide NewRef;
    var (parentRef, projectId) := (t[n].parentRef, t[n].projectId);
    assert LiveInTable(Run(t, n).scopes, parentRef, projectId) <==> LiveFor(t, n, parentRef, projectId).Some?;
    assert Parent(t, n) == if parentRef == "" then None else LiveFor(t, n, parentRef, projectId);
    assert Starts(t, n) <==> t[n].kind.Mutation? || Parent(t, n).Some?;
  }

  lemma TrackedAtHold<Op>(t: Trace<Op>, n: nat, ref: Ref)
    requires n < |t| && t[n].Hold? && Tracked(t, n, ref)
    ensures Tracked(t, n + 1, ref)
  {
    hide NewRef, Parent;
  }

  lemma TrackedAtClose<Op>(t: Trace<Op>, n: nat, ref: Ref)
    requires n < |t| && t[n].Close? && Tracked(t, n, ref)
    ensures Tracked(t, n + 1, ref)
  {
    hide NewRef, Parent;
  }

  /** The table holds exactly the live scopes. */
  lemma {:induction false} TableTracks<Op>(t: Trace<Op>, n: nat, ref: Ref)
    requires n <= |t|
    ensures Tracked(t, n, ref)
    decreases n
  {
    if n > 0 {
      hide Tracked;
      TableTracks(t, n - 1, ref);
      match t[n - 1]
      case Open(_, parentRef, _, _) =>
        TableTracks(t, n - 1, parentRef);
        TrackedAtOpen(t, n - 1, ref);
      case Hold(_, _, _) => TrackedAtHold(t, n - 1, ref);
      case Close(_, _) => TrackedAtClose(t, n - 1, ref);
    }
  }

  lemma LiveInTableExact<Op>(t: Trace<Op>, n: nat, ref: Ref, projectId: string)
    requires n <= |t|
    ensures LiveInTable(Run(t, n).scopes, ref, projectId) <==> LiveFor(t, n, ref, projectId).Some?
  {
    TableTracks(t, n, ref);
  }

  // ---------------------------------------------------------------- fates

  lemma {:induction false} ParentWasLive<Op>(t: Trace<Op>, i: nat)
    requires WellFormed(t) && i < |t| && t[i].Open? && Parent(t, i).Some?
    ensures Starts(t, Parent(t, i).value) && EndOf(t, Parent(t, i).value, i).None?
  {
    LiveScopeExact(t, i, t[i].parentRef, Parent(t, i).value);
  }

  lemma {:induction false} FateIsLive<Op>(t: Trace<Op>, i: nat, n: nat)
    requires WellFormed(t) && i < n <= |t| && Starts(t, i)
    ensures FateOf(t, i, n).Live? ==>
      var j := FateOf(t, i, n).scope;
      j <= i && Starts(t, j) && EndOf(t, j, n).None?
    decreases i
  {
    if EndOf(t, i, n).Some? && Parent(t, i).Some? {
      ParentWasLive(t, i);
      FateIsLive(t, Parent(t, i).value, n);
    }
  }

  /** One more event changes the fate of a scope's calls only by closing the scope they are in. */
  lemma {:induction false} FateStep<Op>(t: Trace<Op>, i: nat, n: nat)
    requires WellFormed(t) && i < n < |t| && Starts(t, i)
    ensures
      var before := FateOf(t, i, n);
      FateOf(t, i, n + 1) ==
        if before.Live? && before.scope < n && t[before.scope].Open? then FateOf(t, before.scope, n + 1) else before
    decreases i
  {
    var end := EndOf(t, i, n);
    if end.Some? {
      EndStays(t, i, n, n + 1);
      if Parent(t, i).Some? {
        ParentWasLive(t, i);
        FateStep(t, Parent(t, i).value, n);
      }
    }
  }

  /** The calls of a scope that has not been closed yet. */
  lemma FateOfOpen<Op>(t: Trace<Op>, i: nat, n: nat)
    requires i < |t| && t[i].Open? && n <= |t| && EndOf(t, i, n).None?
    ensures FateOf(t, i, n) == Live(i)
  {
  }

  /** Where the calls of a scope go when event n closes it. */
  lemma {:induction false} FateAtClose<Op>(t: Trace<Op>, i: nat, n: nat)
    requires WellFormed(t) && i < n < |t| && Starts(t, i) && EndOf(t, i, n).None?
    requires t[n].Close? && t[n].ref == NewRef(t[i].uuid)
    ensures FateOf(t, i, n + 1) ==
      if t[n].settled.Failed? then Dropped(n)
      else match Parent(t, i)
        case None => Sent(n)
        case Some(p) => if EndOf(t, p, n).None? then Live(p) else Lost(n)
  {
    assert EndOf(t, i, n + 1) == Some(n);
    if Parent(t, i).Some? && EndOf(t, Parent(t, i).value, n).None? {
      var p := Parent(t, i).value;
      if NewRef(t[p].uuid) == NewRef(t[i].uuid) {
        NewRefInjective(t[p].uuid, t[i].uuid);
        assert false;
      }
      assert EndOf(t, p, n + 1).None?;
    }
  }

  // ---------------------------------------------------------------- places

  /** Calls leave the table under the event that closed their scope. */
  lemma {:induction false} FiledBefore<Op>(t: Trace<Op>, n: nat, c: nat)
    requires n <= |t| && n <= c
    ensures c !in Run(t, n).sent && c !in Run(t, n).dropped && c !in Run(t, n).lost
    decreases n
  {
    if n > 0 { FiledBefore(t, n - 1, c); }
  }

  /** Two openings share a ref only if they are the same event. */
  lemma SameRef<Op>(t: Trace<Op>, i: nat, j: nat)
    requires WellFormed(t) && i < |t| && j < |t| && t[i].Open? && t[j].Open?
    requires NewRef(t[i].uuid) == NewRef(t[j].uuid)
    ensures i == j
  {
    NewRefInjective(t[i].uuid, t[j].uuid);
  }

  lemma PlaceAtOpen<Op>(t: Trace<Op>, n: nat, fate: Fate)
    requires WellFormed(t) && n < |t| && t[n].Open?
    ensures Place(t, Run(t, n + 1), fate) == Place(t, Run(t, n), fate)
  {
    if fate.Live? && fate.scope < |t| && t[fate.scope].Open? && NewRef(t[fate.scope].uuid) == NewRef(t[n].uuid) {
      SameRef(t, fate.scope, n);
      TableTracks(t, n, NewRef(t[n].uuid));
      if LiveScope(t, n, NewRef(t[n].uuid)).Some? {
        SameRef(t, LiveScope(t, n, NewRef(t[n].uuid)).value, n);
        assert false;
      }
    }
  }

  lemma PlaceAtHold<Op>(t: Trace<Op>, n: nat, fate: Fate)
    requires WellFormed(t) && n < |t| && t[n].Hold?
    ensures Place(t, Run(t, n + 1), fate) ==
      Place(t, Run(t, n), fate) +
      if HoldScope(t, n).Some? && fate == Live(HoldScope(t, n).value) then [Held(n, t[n].op)] else []
  {
    TableTracks(t, n, t[n].ref);
    if fate.Live? && fate.scope < |t| && t[fate.scope].Open? && HoldScope(t, n).Some?
       && NewRef(t[fate.scope].uuid) == t[n].ref {
      SameRef(t, fate.scope, HoldScope(t, n).value);
    }
  }

  /** A ref stands for scope i in the table exactly while i is live. */
  lemma InTableExact<Op>(t: Trace<Op>, n: nat, i: nat)
    requires WellFormed(t) && n <= |t| && i < |t| && t[i].Open?
    ensures NewRef(t[i].uuid) in Run(t, n).scopes <==> i < n && Starts(t, i) && EndOf(t, i, n).None?
  {
    var ref := NewRef(t[i].uuid);
    TableTracks(t, n, ref);
    LiveScopeExact(t, n, ref, i);
    if LiveScope(t, n, ref).Some? { SameRef(t, LiveScope(t, n, ref).value, i); }
  }

  /** What the table does with scope j's entry when event n closes it. */
  lemma CloseStep<Op>(t: Trace<Op>, n: nat, j: nat)
    requires WellFormed(t) && n < |t| && t[n].Close? && LiveScope(t, n, t[n].ref) == Some(j)
    ensures t[n].ref in Run(t, n).scopes && FateOf(t, j, n + 1) != Live(j) && t[n].ref == NewRef(t[j].uuid)
    ensures
      var s := Run(t, n);
      var ops := s.scopes[t[n].ref].ops;
      var left := s.(scopes := s.scopes - {t[n].ref});
      var after := Run(t, n + 1);
      match FateOf(t, j, n + 1)
      case Dropped(c) => c == n && after == if ops == [] then left else left.(dropped := s.dropped[n := ops])
      case Sent(c) => c == n && after == if ops == [] then left else left.(sent := s.sent[n := ops])
      case Lost(c) => c == n && after == if ops == [] then left else left.(lost := s.lost[n := ops])
      case Live(p) =>
        && p < |t| && t[p].Open? && NewRef(t[p].uuid) in left.scopes
        && after == if ops == [] then left
                    else left.(scopes := left.scopes[NewRef(t[p].uuid) :=
                           left.scopes[NewRef(t[p].uuid)].(ops := left.scopes[NewRef(t[p].uuid)].ops + ops)])
  {
    TableTracks(t, n, t[n].ref);
    LiveScopeExact(t, n, t[n].ref, j);
    FateAtClose(t, j, n);
    if Parent(t, j).Some? {
      var p := Parent(t, j).value;
      ParentWasLive(t, j);
      InTableExact(t, n, p);
      if NewRef(t[p].uuid) == t[n].ref { SameRef(t, p, j); assert false; }
    }
  }

  /** A close moves the whole content of the scope it ends to one place, and touches no other. */
  lemma PlaceAtClose<Op>(t: Trace<Op>, n: nat, fate: Fate)
    requires WellFormed(t) && n < |t| && t[n].Close?
    ensures Place(t, Run(t, n + 1), fate) ==
      match LiveScope(t, n, t[n].ref)
      case None => Place(t, Run(t, n), fate)
      case Some(j) =>
        if fate == Live(j) then []
        else Place(t, Run(t, n), fate) +
             if fate == FateOf(t, j, n + 1) then Place(t, Run(t, n), Live(j)) else []
  {
    hide LiveScope, FateOf, Place, Run, WellFormed;
    match LiveScope(t, n, t[n].ref)
    case None => NothingCloses(t, n);
    case Some(j) =>
      if fate.Live? {
        LivePlaceAtClose(t, n, j, fate);
      } else {
        LeftPlaceAtClose(t, n, j, fate);
      }
  }

  lemma NothingCloses<Op>(t: Trace<Op>, n: nat)
    requires n < |t| && t[n].Close? && LiveScope(t, n, t[n].ref).None?
    ensures Run(t, n + 1) == Run(t, n)
  {
    TableTracks(t, n, t[n].ref);
  }

  lemma LeftPlaceAtClose<Op>(t: Trace<Op>, n: nat, j: nat, fate: Fate)
    requires WellFormed(t) && n < |t| && t[n].Close? && LiveScope(t, n, t[n].ref) == Some(j) && !fate.Live?
    ensures Place(t, Run(t, n + 1), fate) ==
      Place(t, Run(t, n), fate) + if fate == FateOf(t, j, n + 1) then Place(t, Run(t, n), Live(j)) else []
  {
    hide LiveScope, FateOf, Run, WellFormed, Step;
    CloseStep(t, n, j);
    FiledBefore(t, n, n);
  }

  lemma LivePlaceAtClose<Op>(t: Trace<Op>, n: nat, j: nat, fate: Fate)
    requires WellFormed(t) && n < |t| && t[n].Close? && LiveScope(t, n, t[n].ref) == Some(j) && fate.Live?
    ensures Place(t, Run(t, n + 1), fate) ==
      if fate == Live(j) then []
      else Place(t, Run(t, n), fate) + if fate == FateOf(t, j, n + 1) then Place(t, Run(t, n), Live(j)) else []
  {
    hide LiveScope, FateOf, Run, WellFormed, Step;
    CloseStep(t, n, j);
    if fate.scope < |t| && t[fate.scope].Open? {
      if NewRef(t[fate.scope].uuid) == t[n].ref { SameRef(t, fate.scope, j); }
      var to := FateOf(t, j, n + 1);
      if to.Live? && NewRef(t[fate.scope].uuid) == NewRef(t[to.scope].uuid) { SameRef(t, fate.scope, to.scope); }
    }
  }

  // ---------------------------------------------------------------- the main results

  /** The call belongs, by the trace, where the fate says. */
  ghost predicate Belongs<Op>(t: Trace<Op>, n: nat, fate: Fate, h: Held<Op>)
    requires n <= |t|
  {
    && h.at < n
    && HoldScope(t, h.at).Some?
    && t[h.at].op == h.op
    && FateOf(t, HoldScope(t, h.at).value, n) == fate
  }

  lemma HoldScopeIsLive<Op>(t: Trace<Op>, k: nat)
    requires WellFormed(t) && k < |t| && HoldScope(t, k).Some?
    ensures Starts(t, HoldScope(t, k).value) && EndOf(t, HoldScope(t, k).value, k + 1).None?
  {
    LiveScopeExact(t, k, t[k].ref, HoldScope(t, k).value);
  }

  /** What one more event does to the fate of a call already held. */
  lemma HeldStep<Op>(t: Trace<Op>, k: nat, e: nat)
    requires WellFormed(t) && k < e < |t| && HoldScope(t, k).Some?
    ensures
      var i := HoldScope(t, k).value;
      var before := FateOf(t, i, e);
      FateOf(t, i, e + 1) ==
        if t[e].Close? && LiveScope(t, e, t[e].ref).Some? && before == Live(LiveScope(t, e, t[e].ref).value)
        then FateOf(t, LiveScope(t, e, t[e].ref).value, e + 1)
        else before
  {
    var i := HoldScope(t, k).value;
    HoldScopeIsLive(t, k);
    FateStep(t, i, e);
    FateIsLive(t, i, e);
    var before := FateOf(t, i, e);
    if before.Live? && t[e].Close? && t[e].ref == NewRef(t[before.scope].uuid) {
      LiveScopeExact(t, e, t[e].ref, before.scope);
    } else if before.Live? {
      assert EndOf(t, before.scope, e + 1).None?;
      if t[e].Close? && LiveScope(t, e, t[e].ref).Some? {
        assert LiveScope(t, e, t[e].ref).value != before.scope;
      }
    }
  }

  /** An event that leaves a place as it was leaves its calls where they belong, unless it closes that place. */
  lemma BelongsStill<Op>(t: Trace<Op>, e: nat, fate: Fate, h: Held<Op>)
    requires WellFormed(t) && e < |t| && Belongs(t, e, fate, h)
    requires t[e].Close? ==> LiveScope(t, e, t[e].ref).None? || fate != Live(LiveScope(t, e, t[e].ref).value)
    ensures Belongs(t, e + 1, fate, h)
  {
    hide FateOf, HoldScope, LiveScope, WellFormed;
    HeldStep(t, h.at, e);
  }

  /** A close takes the calls of its scope to that scope's fate. */
  lemma BelongsAfterClose<Op>(t: Trace<Op>, e: nat, h: Held<Op>)
    requires WellFormed(t) && e < |t| && t[e].Close? && LiveScope(t, e, t[e].ref).Some?
    requires Belongs(t, e, Live(LiveScope(t, e, t[e].ref).value), h)
    ensures Belongs(t, e + 1, FateOf(t, LiveScope(t, e, t[e].ref).value, e + 1), h)
  {
    hide FateOf, HoldScope, LiveScope, WellFormed;
    HeldStep(t, h.at, e);
  }

  lemma BelongsWhenHeld<Op>(t: Trace<Op>, e: nat)
    requires WellFormed(t) && e < |t| && t[e].Hold? && HoldScope(t, e).Some?
    ensures Belongs(t, e + 1, Live(HoldScope(t, e).value), Held(e, t[e].op))
  {
    hide HoldScope, LiveScope, WellFormed, EndOf;
    HoldScopeIsLive(t, e);
    FateOfOpen(t, HoldScope(t, e).value, e + 1);
  }

  ghost predicate Sound<Op>(t: Trace<Op>, n: nat, fate: Fate)
    requires n <= |t|
  {
    forall m :: 0 <= m < |Place(t, Run(t, n), fate)| ==> Belongs(t, n, fate, Place(t, Run(t, n), fate)[m])
  }

  lemma SoundAtOpen<Op>(t: Trace<Op>, e: nat, fate: Fate)
    requires WellFormed(t) && e < |t| && t[e].Open? && Sound(t, e, fate)
    ensures Sound(t, e + 1, fate)
  {
    hide Belongs, FateOf, HoldScope, LiveScope, WellFormed, Place, Run;
    PlaceAtOpen(t, e, fate);
    var before := Place(t, Run(t, e), fate);
    forall m | 0 <= m < |before| ensures Belongs(t, e + 1, fate, before[m]) { BelongsStill(t, e, fate, before[m]); }
  }

  lemma SoundAtHold<Op>(t: Trace<Op>, e: nat, fate: Fate)
    requires WellFormed(t) && e < |t| && t[e].Hold? && Sound(t, e, fate)
    ensures Sound(t, e + 1, fate)
  {
    hide Belongs, FateOf, HoldScope, LiveScope, WellFormed, Place, Run;
    PlaceAtHold(t, e, fate);
    var before := Place(t, Run(t, e), fate);
    forall m | 0 <= m < |before| ensures Belongs(t, e + 1, fate, before[m]) { BelongsStill(t, e, fate, before[m]); }
    if HoldScope(t, e).Some? { BelongsWhenHeld(t, e); }
  }

  lemma SoundAtClose<Op>(t: Trace<Op>, e: nat, fate: Fate)
    requires WellFormed(t) && e < |t| && t[e].Close? && Sound(t, e, fate)
    requires LiveScope(t, e, t[e].ref).Some? ==> Sound(t, e, Live(LiveScope(t, e, t[e].ref).value))
    ensures Sound(t, e + 1, fate)
  {
    hide Belongs, FateOf, HoldScope, LiveScope, WellFormed, Place, Run;
    PlaceAtClose(t, e, fate);
    var before := Place(t, Run(t, e), fate);
    var live := LiveScope(t, e, t[e].ref);
    if live.None? || fate != Live(live.value) {
      forall m | 0 <= m < |before| ensures Belongs(t, e + 1, fate, before[m]) { BelongsStill(t, e, fate, before[m]); }
    }
    if live.Some? {
      var moved := Place(t, Run(t, e), Live(live.value));
      forall m | 0 <= m < |moved| ensures Belongs(t, e + 1, FateOf(t, live.value, e + 1), moved[m]) {
        BelongsAfterClose(t, e, moved[m]);
      }
    }
  }

  lemma {:induction false} AllSound<Op>(t: Trace<Op>, n: nat, fate: Fate)
    requires WellFormed(t) && n <= |t|
    ensures Sound(t, n, fate)
    decreases n
  {
    if n == 0 {
      NothingPlaced(t, fate);
    } else {
      hide Sound, LiveScope, WellFormed;
      var e := n - 1;
      AllSound(t, e, fate);
      match t[e]
      case Open(_, _, _, _) => SoundAtOpen(t, e, fate);
      case Hold(_, _, _) => SoundAtHold(t, e, fate);
      case Close(ref, _) =>
        if LiveScope(t, e, ref).Some? { AllSound(t, e, Live(LiveScope(t, e, ref).value)); }
        SoundAtClose(t, e, fate);
    }
  }

  /** Nothing is in a place it does not belong to: no call is invented, sent early or sent twice. */
  lemma PlacesAreSound<Op>(t: Trace<Op>, n: nat, fate: Fate, m: nat)
    requires WellFormed(t) && n <= |t| && m < |Place(t, Run(t, n), fate)|
    ensures Belongs(t, n, fate, Place(t, Run(t, n), fate)[m])
  {
    hide Place, Run, WellFormed, Belongs;
    AllSound(t, n, fate);
  }

  lemma NothingPlaced<Op>(t: Trace<Op>, fate: Fate)
    ensures Place(t, Run(t, 0), fate) == []
  {
  }

  /** Every call ever taken is in the place its fate names. */
  lemma {:induction false} PlacesAreComplete<Op>(t: Trace<Op>, n: nat, k: nat)
    requires WellFormed(t) && k < n <= |t| && HoldScope(t, k).Some?
    ensures Held(k, t[k].op) in Place(t, Run(t, n), FateOf(t, HoldScope(t, k).value, n))
    decreases n
  {
    var e := n - 1;
    var i := HoldScope(t, k).value;
    var fate := FateOf(t, i, n);
    if k == e {
      HoldScopeIsLive(t, e);
      PlaceAtHold(t, e, fate);
    } else {
      PlacesAreComplete(t, e, k);
      HeldStep(t, k, e);
      match t[e]
      case Open(_, _, _, _) => PlaceAtOpen(t, e, fate);
      case Hold(_, _, _) => PlaceAtHold(t, e, fate);
      case Close(ref, _) =>
        PlaceAtClose(t, e, fate);
        if LiveScope(t, e, ref).Some? { CloseStep(t, e, LiveScope(t, e, ref).value); }
    }
  }

  /** Whatever place two calls of one scope share, they keep the order they were made in. */
  lemma {:induction false} PlacesKeepOrder<Op>(t: Trace<Op>, n: nat, fate: Fate, a: nat, b: nat)
    requires WellFormed(t) && n <= |t| && a < b < |Place(t, Run(t, n), fate)|
    requires
      var place := Place(t, Run(t, n), fate);
      && place[a].at < |t| && place[b].at < |t|
      && HoldScope(t, place[a].at) == HoldScope(t, place[b].at)
    ensures Place(t, Run(t, n), fate)[a].at < Place(t, Run(t, n), fate)[b].at
    decreases n
  {
    hide FateOf, LiveScope, HoldScope, EndOf, Step, LiveFor, Starts, WellFormed;
    if n > 0 {
      var e := n - 1;
      var before := Place(t, Run(t, e), fate);
      match t[e]
      case Open(_, _, _, _) =>
        PlaceAtOpen(t, e, fate);
        PlacesKeepOrder(t, e, fate, a, b);
      case Hold(_, _, _) =>
        PlaceAtHold(t, e, fate);
        if b < |before| { PlacesKeepOrder(t, e, fate, a, b); } else { PlacesAreSound(t, e, fate, a); }
      case Close(ref, _) =>
        PlaceAtClose(t, e, fate);
        if b < |before| {
          PlacesKeepOrder(t, e, fate, a, b);
        } else {
          var j := LiveScope(t, e, ref).value;
          PlacesAreSound(t, e, Live(j), b - |before|);
          if |before| <= a {
            PlacesKeepOrder(t, e, Live(j), a - |before|, b - |before|);
          } else {
            PlacesAreSound(t, e, fate, a);  // the two would have had different fates before the close
            assert false;
          }
        }
    }
  }

  /**
   A call is sent exactly when its own scope and every scope that one was opened under settled
   "success", each nested one while its parent was still live.
   */
  lemma SentIffAncestryCommits<Op>(t: Trace<Op>, n: nat, k: nat)
    requires WellFormed(t) && k < n <= |t| && HoldScope(t, k).Some?
    ensures (exists c :: c in Run(t, n).sent && Held(k, t[k].op) in Run(t, n).sent[c]) <==>
            (forall a :: a in Ancestry(t, HoldScope(t, k).value) ==> Commits(t, a, n))
  {
    var i := HoldScope(t, k).value;
    SentFateIffCommits(t, i, n);
    PlacesAreComplete(t, n, k);
    if FateOf(t, i, n).Sent? {
      assert Held(k, t[k].op) in Run(t, n).sent[FateOf(t, i, n).at];
    }
    if c :| c in Run(t, n).sent && Held(k, t[k].op) in Run(t, n).sent[c] {
      var m :| 0 <= m < |Run(t, n).sent[c]| && Run(t, n).sent[c][m] == Held(k, t[k].op);
      PlacesAreSound(t, n, Sent(c), m);
    }
  }

  lemma {:induction false} SentFateIffCommits<Op>(t: Trace<Op>, i: nat, n: nat)
    requires WellFormed(t) && i < |t| && t[i].Open? && n <= |t|
    ensures FateOf(t, i, n).Sent? <==> forall a :: a in Ancestry(t, i) ==> Commits(t, a, n)
    decreases i
  {
    match Parent(t, i)
    case None => assert i in Ancestry(t, i);
    case Some(p) =>
      SentFateIffCommits(t, p, n);
      assert Ancestry(t, i) == [i] + Ancestry(t, p);
      assert i in Ancestry(t, i);
      assert forall a :: a in Ancestry(t, i) <==> a == i || a in Ancestry(t, p);
  }

  /**
   Conservation: at every point of every trace, each call ever taken is filed in exactly one place -
   its live scope, a sent batch, a dropped one or a lost one - and stands there exactly once.
   */
  lemma Conservation<Op>(t: Trace<Op>, n: nat, k: nat)
    requires WellFormed(t) && k < n <= |t| && HoldScope(t, k).Some?
    ensures
      var home := FateOf(t, HoldScope(t, k).value, n);
      exists m :: (
        && 0 <= m < |Place(t, Run(t, n), home)| && Place(t, Run(t, n), home)[m] == Held(k, t[k].op)
        && forall fate, m' ::
             0 <= m' < |Place(t, Run(t, n), fate)| && Place(t, Run(t, n), fate)[m'].at == k ==> fate == home && m' == m)
  {
    var i := HoldScope(t, k).value;
    var home := FateOf(t, i, n);
    PlacesAreComplete(t, n, k);
    var m :| 0 <= m < |Place(t, Run(t, n), home)| && Place(t, Run(t, n), home)[m] == Held(k, t[k].op);
    forall fate, m' | 0 <= m' < |Place(t, Run(t, n), fate)| && Place(t, Run(t, n), fate)[m'].at == k
      ensures fate == home && m' == m
    {
      PlacesAreSound(t, n, fate, m');
      if m' < m { PlacesKeepOrder(t, n, home, m', m); }
      if m < m' { PlacesKeepOrder(t, n, home, m, m'); }
    }
  }

  /** A live scope holds exactly what it gathered: its own calls in order, with each committed child's
      calls as one block where that child settled. */
  lemma {:induction false} LiveScopeGathers<Op>(t: Trace<Op>, n: nat, i: nat)
    requires WellFormed(t) && n <= |t| && i < n && Starts(t, i) && EndOf(t, i, n).None?
    ensures Place(t, Run(t, n), Live(i)) == Gathered(t, i, n)
    decreases n, 0
  {
    var e := n - 1;
    if i == e {
      InTableExact(t, e, i);
      PlaceAtOpen(t, e, Live(i));
    } else {
      LiveScopeGathers(t, e, i);
      match t[e]
      case Open(_, _, _, _) => PlaceAtOpen(t, e, Live(i));
      case Hold(_, _, _) => PlaceAtHold(t, e, Live(i));
      case Close(ref, _) =>
        PlaceAtClose(t, e, Live(i));
        match LiveScope(t, e, ref)
        case None =>
        case Some(j) =>
          LiveScopeExact(t, e, ref, j);
          FateAtClose(t, j, e);
          LiveScopeGathers(t, e, j);
    }
  }

  /** The batch sent at a close is what its root scope had gathered by then. */
  lemma {:induction false} BatchIsGathered<Op>(t: Trace<Op>, n: nat, c: nat)
    requires WellFormed(t) && n <= |t| && c in Run(t, n).sent
    ensures c < n && t[c].Close? && t[c].settled.Succeeded? && LiveScope(t, c, t[c].ref).Some?
    ensures Parent(t, LiveScope(t, c, t[c].ref).value).None?
    ensures Run(t, n).sent[c] == Gathered(t, LiveScope(t, c, t[c].ref).value, c) != []
    decreases n
  {
    hide Gathered, LiveScope, EndOf, Starts, WellFormed;
    if n > 0 {
      var e := n - 1;
      if c in Run(t, e).sent {
        BatchIsGathered(t, e, c);
        FiledBefore(t, e, e);
      } else {
        TableTracks(t, e, t[e].ref);
        var j := LiveScope(t, e, t[e].ref).value;
        LiveScopeExact(t, e, t[e].ref, j);
        LiveScopeGathers(t, e, j);
        CloseStep(t, e, j);
      }
    }
  }

  /** A parent opened before its child and serves the same project, so ancestry never loops. */
  lemma {:induction false} AncestryIsOneProject<Op>(t: Trace<Op>, i: nat, m: nat)
    requires WellFormed(t) && i < |t| && Starts(t, i) && m < |Ancestry(t, i)|
    ensures
      var a := Ancestry(t, i)[m];
      a in Ancestry(t, i) && Starts(t, a) && t[a].projectId == t[i].projectId
    ensures m > 0 ==> Ancestry(t, i)[m] < Ancestry(t, i)[m - 1] <= i && Parent(t, Ancestry(t, i)[m - 1]) == Some(Ancestry(t, i)[m])
    decreases i
  {
    if m > 0 {
      var p := Parent(t, i).value;
      ParentWasLive(t, i);
      AncestryIsOneProject(t, p, m - 1);
      if m == 1 { assert Ancestry(t, p)[0] == p; }
    }
  }

  /** A call filed under a live or sent fate was made for the project of the scope that carries it. */
  lemma {:induction false} FateKeepsProject<Op>(t: Trace<Op>, i: nat, n: nat)
    requires WellFormed(t) && i < n <= |t| && Starts(t, i)
    ensures FateOf(t, i, n).Live? ==>
      var j := FateOf(t, i, n).scope;
      j < |t| && t[j].Open? && t[j].projectId == t[i].projectId
    ensures FateOf(t, i, n).Sent? ==>
      var c := FateOf(t, i, n).at;
      c < n && t[c].Close? && LiveScope(t, c, t[c].ref).Some? && t[LiveScope(t, c, t[c].ref).value].projectId == t[i].projectId
    decreases i
  {
    FateIsLive(t, i, n);
    if EndOf(t, i, n).Some? {
      var end := EndOf(t, i, n).value;
      EndIsFirst(t, i, n);
      LiveScopeExact(t, end, NewRef(t[i].uuid), i);
      if Parent(t, i).Some? {
        ParentWasLive(t, i);
        FateKeepsProject(t, Parent(t, i).value, n);
      }
    }
  }

  /** Every call of a sent batch was made for the project of the scope whose close sends it. */
  lemma BatchIsOneProject<Op>(t: Trace<Op>, n: nat, c: nat, m: nat)
    requires WellFormed(t) && n <= |t| && c in Run(t, n).sent && m < |Run(t, n).sent[c]|
    ensures c < n && t[c].Close? && LiveScope(t, c, t[c].ref).Some?
    ensures
      var h := Run(t, n).sent[c][m];
      h.at < c && t[h.at].Hold? && t[h.at].op == h.op && t[h.at].projectId == t[LiveScope(t, c, t[c].ref).value].projectId
  {
    BatchIsGathered(t, n, c);
    PlacesAreSound(t, n, Sent(c), m);
    var k := Run(t, n).sent[c][m].at;
    var i := HoldScope(t, k).value;
    HoldScopeIsLive(t, k);
    FateKeepsProject(t, i, n);
    SentAfterHold(t, i, k, n);
  }

  lemma {:induction false} SentAfterHold<Op>(t: Trace<Op>, i: nat, k: nat, n: nat)
    requires WellFormed(t) && i < k < n <= |t| && Starts(t, i) && EndOf(t, i, k + 1).None? && FateOf(t, i, n).Sent?
    ensures k < FateOf(t, i, n).at < n
    decreases i
  {
    var end := EndOf(t, i, n).value;
    if end <= k { EndIsFirst(t, i, n); EndStays(t, i, end + 1, k + 1); assert false; }
    if Parent(t, i).Some? {
      var p := Parent(t, i).value;
      ParentWasLive(t, i);
      if EndOf(t, p, k + 1).Some? { EndStays(t, p, k + 1, end); assert false; }
      SentAfterHold(t, p, k, n);
    }
  }

  // ---------------------------------------------------------------- growing traces

  /** Nothing said of the first n events depends on later ones. */
  lemma {:induction false} LiveScopeOfPrefix<Op>(t: Trace<Op>, u: Trace<Op>, n: nat, ref: Ref)
    requires t <= u && n <= |t|
    ensures LiveScope(u, n, ref) == LiveScope(t, n, ref)
    decreases n, 0
  {
    if n > 0 {
      LiveScopeOfPrefix(t, u, n - 1, ref);
      ParentOfPrefix(t, u, n - 1);
    }
  }

  lemma {:induction false} ParentOfPrefix<Op>(t: Trace<Op>, u: Trace<Op>, i: nat)
    requires t <= u && i < |t|
    ensures t[i].Open? ==> Parent(u, i) == Parent(t, i)
    ensures Starts(u, i) == Starts(t, i)
    decreases i, 1
  {
    if t[i].Open? { LiveScopeOfPrefix(t, u, i, t[i].parentRef); }
  }

  lemma HoldScopeOfPrefix<Op>(t: Trace<Op>, u: Trace<Op>, k: nat)
    requires t <= u && k < |t|
    ensures HoldScope(u, k) == HoldScope(t, k)
  {
    if t[k].Hold? { LiveScopeOfPrefix(t, u, k, t[k].ref); }
  }

  lemma {:induction false} EndOfPrefix<Op>(t: Trace<Op>, u: Trace<Op>, i: nat, n: nat)
    requires t <= u && i < |t| && t[i].Open? && n <= |t|
    ensures EndOf(u, i, n) == EndOf(t, i, n)
    decreases n
  {
    if n > i + 1 { EndOfPrefix(t, u, i, n - 1); }
  }

  lemma {:induction false} FateOfPrefix<Op>(t: Trace<Op>, u: Trace<Op>, i: nat, n: nat)
    requires t <= u && i < |t| && t[i].Open? && n <= |t|
    ensures FateOf(u, i, n) == FateOf(t, i, n)
    decreases i
  {
    EndOfPrefix(t, u, i, n);
    ParentOfPrefix(t, u, i);
    if EndOf(t, i, n).Some? && Parent(t, i).Some? {
      EndOfPrefix(t, u, Parent(t, i).value, EndOf(t, i, n).value);
      FateOfPrefix(t, u, Parent(t, i).value, n);
    }
  }

  lemma {:induction false} RunOfPrefix<Op>(t: Trace<Op>, u: Trace<Op>, n: nat)
    requires t <= u && n <= |t|
    ensures Run(u, n) == Run(t, n)
  {
    if n > 0 { RunOfPrefix(t, u, n - 1); }
  }

  lemma GatheredNothing<Op>(t: Trace<Op>, i: nat, n: nat)
    requires i < |t| && t[i].Open? && n <= |t| && n <= i
    ensures Gathered(t, i, n) == []
  {
  }

  /** What one event adds to a scope. */
  ghost function Addition<Op>(t: Trace<Op>, i: nat, e: nat): seq<Held<Op>>
    requires i <= e < |t| && t[i].Open?
  {
    match t[e]
    case Open(_, _, _, _) => []
    case Hold(_, _, op) => if HoldScope(t, e) == Some(i) then [Held(e, op)] else []
    case Close(ref, settled) =>
      match LiveScope(t, e, ref)
      case None => []
      case Some(child) =>
        if settled.Succeeded? && Parent(t, child) == Some(i) && EndOf(t, i, e).None? then Gathered(t, child, e) else []
  }

  lemma GatheredStep<Op>(t: Trace<Op>, i: nat, e: nat)
    requires i <= e < |t| && t[i].Open?
    ensures Gathered(t, i, e + 1) == Gathered(t, i, e) + Addition(t, i, e)
  {
    hide LiveScope, HoldScope, Parent, EndOf;
  }

  lemma {:induction false} GatheredOfPrefix<Op>(t: Trace<Op>, u: Trace<Op>, i: nat, n: nat)
    requires t <= u && i < |t| && t[i].Open? && n <= |t|
    ensures Gathered(u, i, n) == Gathered(t, i, n)
    decreases n
  {
    hide LiveScope, HoldScope, Parent, EndOf, Starts, Gathered;
    if n <= i {
      GatheredNothing(t, i, n);
      GatheredNothing(u, i, n);
    } else {
      var e := n - 1;
      GatheredOfPrefix(t, u, i, e);
      GatheredStep(t, i, e);
      GatheredStep(u, i, e);
      match t[e]
      case Open(_, _, _, _) =>
      case Hold(_, _, _) => HoldScopeOfPrefix(t, u, e);
      case Close(ref, _) =>
        LiveScopeOfPrefix(t, u, e, ref);
        if LiveScope(t, e, ref).Some? {
          var j := LiveScope(t, e, ref).value;
          ParentOfPrefix(t, u, j);
          EndOfPrefix(t, u, i, e);
          GatheredOfPrefix(t, u, j, e);
        }
    }
  }

  /** Once sent, dropped or lost, a call stays so whatever follows. */
  lemma {:induction false} FateIsFinal<Op>(t: Trace<Op>, i: nat, m: nat, n: nat)
    requires WellFormed(t) && i < m <= n <= |t| && Starts(t, i) && !FateOf(t, i, m).Live?
    ensures FateOf(t, i, n) == FateOf(t, i, m)
    decreases n
  {
    hide WellFormed, Starts, FateOf;
    if m < n {
      FateIsFinal(t, i, m, n - 1);
      FateStep(t, i, n - 1);
    }
  }
}
