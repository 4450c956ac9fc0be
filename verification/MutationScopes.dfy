/** The table of open mutation scopes, kept in place, proved against the trace of calls made on it. */
module MutationScopes {
  import opened Wrappers
  import opened NestedTransactions
  import Laws = NestedTransactionLaws

  /** The calls to send now, and whether a nested mutation's calls are lost because its caller ended. */
  datatype ClosedScope<Op> = ClosedScope(send: seq<Op>, lost: bool)

  datatype Settled = Ok | LostCalls | Unrecorded

  function Values<Op>(held: seq<Held<Op>>): (ops: seq<Op>)
    ensures |ops| == |held| && forall i :: 0 <= i < |ops| ==> ops[i] == held[i].op
  {
    seq(|held|, i requires 0 <= i < |held| => held[i].op)
  }

  function EraseScope<Op>(scope: Scope<Held<Op>>): Scope<Op> {
    Scope(scope.parentRef, scope.projectId, Values(scope.ops))
  }

  /** The entries the program keeps: the table without the event positions. */
  ghost function Erase<Op>(scopes: map<Ref, Scope<Held<Op>>>): map<Ref, Scope<Op>> {
    map ref | ref in scopes :: EraseScope(scopes[ref])
  }

  lemma EraseSet<Op>(scopes: map<Ref, Scope<Held<Op>>>, ref: Ref, scope: Scope<Held<Op>>)
    ensures Erase(scopes[ref := scope]) == Erase(scopes)[ref := EraseScope(scope)]
  {
  }

  lemma EraseDelete<Op>(scopes: map<Ref, Scope<Held<Op>>>, ref: Ref)
    ensures Erase(scopes - {ref}) == Erase(scopes) - {ref}
  {
  }

  lemma EraseAppend<Op>(scope: Scope<Held<Op>>, more: seq<Held<Op>>)
    ensures EraseScope(scope.(ops := scope.ops + more)) == EraseScope(scope).(ops := EraseScope(scope).ops + Values(more))
  {
    assert Values(scope.ops + more) == Values(scope.ops) + Values(more);
  }

  /** What the trace says a close, its last event, hands over to be sent. */
  ghost function SentBy<Op>(t: Trace<Op>, n: nat): seq<Held<Op>>
    requires n < |t| && t[n].Close?
  {
    match LiveScope(t, n, t[n].ref)
    case None => []
    case Some(i) => if t[n].settled.Succeeded? && Parent(t, i).None? then Gathered(t, i, n) else []
  }

  /** What the trace says a close loses: a success whose parent has ended and that has calls to lose. */
  ghost predicate LostBy<Op>(t: Trace<Op>, n: nat)
    requires n < |t| && t[n].Close?
  {
    match LiveScope(t, n, t[n].ref)
    case None => false
    case Some(i) =>
      && t[n].settled.Succeeded?
      && Parent(t, i).Some?
      && EndOf(t, Parent(t, i).value, n).Some?
      && Gathered(t, i, n) != []
  }

  // ---------------------------------------------------------------- what is handed over

  /** What a close hands over is the batch filed under it as sent, and it loses calls exactly when some are filed under
      it as lost. */
  lemma CloseHandsOver<Op>(t: Trace<Op>, n: nat)
    requires WellFormed(t) && n < |t| && t[n].Close?
    ensures SentBy(t, n) == if n in Run(t, n + 1).sent then Run(t, n + 1).sent[n] else []
    ensures LostBy(t, n) <==> n in Run(t, n + 1).lost
  {
    Laws.FiledBefore(t, n, n);
    if LiveScope(t, n, t[n].ref).None? {
      Laws.NothingCloses(t, n);
    } else {
      var j := LiveScope(t, n, t[n].ref).value;
      Laws.LiveScopeExact(t, n, t[n].ref, j);
      Laws.LiveScopeGathers(t, n, j);
      Laws.FateAtClose(t, j, n);
      Laws.CloseStep(t, n, j);
      hide Run, LiveScope, Gathered, EndOf, Parent, Starts, WellFormed, FateOf;
    }
  }

  /** What the table has filed as sent under the last event. */
  ghost function Batch<Op>(t: Trace<Op>): seq<Held<Op>>
    requires t != []
  {
    var sent := Run(t, |t|).sent;
    if |t| - 1 in sent then sent[|t| - 1] else []
  }

  /** The same of a close that is the last event. */
  lemma LastCloseHandsOver<Op>(t: Trace<Op>)
    requires WellFormed(t) && t != [] && t[|t| - 1].Close?
    ensures SentBy(t, |t| - 1) == Batch(t)
    ensures LostBy(t, |t| - 1) <==> |t| - 1 in Run(t, |t|).lost
  {
    hide Run, SentBy, LostBy, WellFormed;
    CloseHandsOver(t, |t| - 1);
  }

  /** A batch once filed stays as it is, and so does what is filed as lost. */
  lemma {:induction false} BatchStays<Op>(t: Trace<Op>, c: nat, m: nat, n: nat)
    requires c < m <= n <= |t|
    ensures c in Run(t, n).sent <==> c in Run(t, m).sent
    ensures c in Run(t, m).sent ==> Run(t, n).sent[c] == Run(t, m).sent[c]
    ensures c in Run(t, n).lost <==> c in Run(t, m).lost
    decreases n
  {
    if m < n { BatchStays(t, c, m, n - 1); }
  }

  /** A held call is handed over by some close exactly when its scope and all its ancestors committed. */
  lemma HandedOverIffAncestryCommits<Op>(t: Trace<Op>, k: nat)
    requires WellFormed(t) && k < |t| && HoldScope(t, k).Some?
    ensures (exists n :: 0 <= n < |t| && t[n].Close? && Held(k, t[k].op) in SentBy(t, n)) <==>
            (forall a :: a in Ancestry(t, HoldScope(t, k).value) ==> Commits(t, a, |t|))
  {
    hide Run, SentBy, HoldScope, Ancestry, Commits, WellFormed;
    Laws.SentIffAncestryCommits(t, |t|, k);
    forall n | 0 <= n < |t| && t[n].Close?
      ensures SentBy(t, n) == if n in Run(t, |t|).sent then Run(t, |t|).sent[n] else []
    {
      CloseHandsOver(t, n);
      BatchStays(t, n, n + 1, |t|);
    }
    if c :| c in Run(t, |t|).sent && Held(k, t[k].op) in Run(t, |t|).sent[c] {
      Laws.BatchIsGathered(t, |t|, c);
    }
  }

  /** No call is handed over twice: not by two closes, and not twice by one. */
  lemma HandedOverOnce<Op>(t: Trace<Op>, n: nat, m: nat, n': nat, m': nat)
    requires WellFormed(t) && n < |t| && t[n].Close? && n' < |t| && t[n'].Close?
    requires m < |SentBy(t, n)| && m' < |SentBy(t, n')| && SentBy(t, n)[m].at == SentBy(t, n')[m'].at
    ensures n == n' && m == m'
  {
    hide SentBy, WellFormed, HoldScope, Run;
    CloseHandsOver(t, n);
    CloseHandsOver(t, n');
    BatchStays(t, n, n + 1, |t|);
    BatchStays(t, n', n' + 1, |t|);
    Laws.PlacesAreSound(t, |t|, Sent(n), m);
    Laws.PlacesAreSound(t, |t|, Sent(n'), m');
    Laws.Conservation(t, |t|, SentBy(t, n)[m].at);
    var k := SentBy(t, n)[m].at;
    var home := FateOf(t, HoldScope(t, k).value, |t|);
    hide FateOf;
    assert Place(t, Run(t, |t|), Sent(n))[m].at == k && Place(t, Run(t, |t|), Sent(n'))[m'].at == k;
  }

  class MutationScopes<Op> {
    var scopes: map<Ref, Scope<Op>>
    ghost var trace: Trace<Op>

    ghost predicate Valid()
      reads this
    {
      WellFormed(trace) && scopes == Erase(Run(trace, |trace|).scopes)
    }

    constructor ()
      ensures Valid() && trace == []
    {
      scopes := map[];
      trace := [];
    }

    /** Appending one event runs the table one step further. */
    ghost method Record(e: Event<Op>)
      requires Valid() && WellFormed(trace + [e])
      modifies this`trace
      ensures trace == old(trace) + [e] && WellFormed(trace)
      ensures scopes == Erase(Run(trace, |trace| - 1).scopes)
      ensures Run(trace, |trace|) == Step(Run(trace, |trace| - 1), e, |trace| - 1)
    {
      trace := trace + [e];
      Laws.RunOfPrefix(old(trace), trace, |old(trace)|);
    }

    predicate Names(ref: Ref, projectId: string)
      reads this
    {
      ref in scopes && scopes[ref].projectId == projectId
    }

    /** Starts the scope for one invocation; "" when the invocation opens none. The uuid is the random
        one drawn for this call. */
    method Open(kind: Kind, parentRef: Ref, projectId: string, uuid: string) returns (ref: Ref)
      requires Valid() && Unused(trace, uuid)
      modifies this
      ensures Valid() && trace == old(trace) + [Event.Open(kind, parentRef, projectId, uuid)]
      ensures ref == if Starts(trace, |trace| - 1) then NewRef(uuid) else ""
    {
      Record(Event.Open(kind, parentRef, projectId, uuid));
      ghost var n := |trace| - 1;
      ghost var before := Run(trace, n).scopes;
      Laws.LiveInTableExact(trace, n, parentRef, projectId);
      var parentLive := parentRef != "" && Names(parentRef, projectId);
      assert parentLive <==> Parent(trace, n).Some?;
      if !parentLive && !kind.Mutation? { return ""; }
      ref := NewRef(uuid);
      var scope := Scope(if parentLive then Some(parentRef) else None, projectId, []);
      EraseSet(before, ref, Scope(scope.parentRef, projectId, []));
      scopes := scopes[ref := scope];
    }

    /** Holds a call in a live scope; false when the ref names none. */
    method Add(ref: Ref, projectId: string, op: Op) returns (held: bool)
      requires Valid()
      modifies this
      ensures Valid() && trace == old(trace) + [Event.Hold(ref, projectId, op)]
      ensures held <==> HoldScope(trace, |trace| - 1).Some?
    {
      Record(Event.Hold(ref, projectId, op));
      ghost var n := |trace| - 1;
      ghost var before := Run(trace, n).scopes;
      Laws.LiveInTableExact(trace, n, ref, projectId);
      held := Names(ref, projectId);
      if held {
        EraseAppend(before[ref], [Held(n, op)]);
        EraseSet(before, ref, before[ref].(ops := before[ref].ops + [Held(n, op)]));
        assert Values([Held(n, op)]) == [op];
        scopes := scopes[ref := scopes[ref].(ops := scopes[ref].ops + [op])];
      }
    }

    /** Add for a worker's call, which fails when the ref names no live scope. */
    method Hold(ref: Ref, projectId: string, op: Op) returns (result: Result<(), string>)
      requires Valid()
      modifies this
      ensures Valid() && trace == old(trace) + [Event.Hold(ref, projectId, op)]
      ensures result.Success? <==> HoldScope(trace, |trace| - 1).Some?
    {
      var held := Add(ref, projectId, op);
      result := if held then Success(())
                else Failure("ctx.scheduler: the mutation that made this call has already ended");
    }

    /** Ends a scope and says which of its calls to send now. */
    method Close(ref: Ref, settled: Outcome) returns (closed: ClosedScope<Op>)
      requires Valid()
      modifies this
      ensures Valid() && trace == old(trace) + [Event.Close(ref, settled)]
      ensures closed.send == Values(SentBy(trace, |trace| - 1))
      ensures closed.lost <==> LostBy(trace, |trace| - 1)
      ensures closed.send == Values(Batch(trace)) && (closed.lost <==> |trace| - 1 in Run(trace, |trace|).lost)
    {
      hide Gathered, LiveScope, EndOf, Parent, Values, Batch, Run;
      Record(Event.Close(ref, settled));
      LastCloseHandsOver(trace);
      ghost var n := |trace| - 1;
      ghost var before := Run(trace, n).scopes;
      Laws.TableTracks(trace, n, ref);
      if ref == "" || ref !in scopes { return ClosedScope([], false); }
      ClosingScope(trace, n);
      EraseDelete(before, ref);
      var scope := scopes[ref];
      scopes := scopes - {ref};
      if settled != Succeeded || |scope.ops| == 0 { return ClosedScope([], false); }
      if scope.parentRef.None? { return ClosedScope(scope.ops, false); }
      var p := scope.parentRef.value;
      if p !in scopes { return ClosedScope([], true); }
      ghost var left := before - {ref};
      EraseAppend(left[p], before[ref].ops);
      EraseSet(left, p, left[p].(ops := left[p].ops + before[ref].ops));
      scopes := scopes[p := scopes[p].(ops := scopes[p].ops + scope.ops)];
      return ClosedScope([], false);
    }

    /** Closes a scope, sends what a succeeded top-level mutation scheduled and says how that ended. */
    method Settle(ref: Ref, settled: Outcome, sendResolves: bool) returns (outcome: Settled, sent: seq<Op>)
      requires Valid()
      modifies this
      ensures Valid() && trace == old(trace) + [Event.Close(ref, settled)]
      ensures sent == Values(SentBy(trace, |trace| - 1))
      ensures sent == Values(Batch(trace))
      ensures outcome == LostCalls <==> LostBy(trace, |trace| - 1)
      ensures outcome == Unrecorded <==> sent != [] && !sendResolves
    {
      var closed := Close(ref, settled);
      sent := closed.send;
      outcome := if closed.lost then LostCalls
                 else if |closed.send| == 0 || sendResolves then Ok
                 else Unrecorded;
    }
  }

  /** The entry event n closes, told from the trace. */
  lemma ClosingScope<Op>(t: Trace<Op>, n: nat)
    requires WellFormed(t) && n < |t| && t[n].Close? && t[n].ref in Run(t, n).scopes
    ensures LiveScope(t, n, t[n].ref).Some?
    ensures
      var i := LiveScope(t, n, t[n].ref).value;
      var scope := Run(t, n).scopes[t[n].ref];
      && scope.ops == Gathered(t, i, n)
      && (scope.parentRef.Some? <==> Parent(t, i).Some?)
      && (scope.parentRef.Some? ==>
            scope.parentRef.value != t[n].ref
            && (scope.parentRef.value in Run(t, n).scopes <==> EndOf(t, Parent(t, i).value, n).None?))
  {
    Laws.TableTracks(t, n, t[n].ref);
    var i := LiveScope(t, n, t[n].ref).value;
    Laws.LiveScopeExact(t, n, t[n].ref, i);
    Laws.LiveScopeGathers(t, n, i);
    if Parent(t, i).Some? {
      var p := Parent(t, i).value;
      Laws.InTableExact(t, n, p);
      Laws.ParentWasLive(t, i);
      if NewRef(t[p].uuid) == t[n].ref { Laws.SameRef(t, i, p); assert false; }
    }
  }
}
