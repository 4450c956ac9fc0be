/**
 Mutation scopes as a nested-transaction specification over traces.

 A trace lists the calls made on the scope table, in the order the single
 JavaScript thread runs them. A scope is named by the position of the `Open`
 that started it, and a held call by the position of its `Hold`, so that two
 equal operations stay apart. The first half of the module says, from the trace
 alone, which scope a ref names, which parent was fixed when a scope opened and
 what became of a scope; the second half runs the table and proves that it
 does exactly that.
 */
module NestedTransactions {
  import opened Wrappers

  type Ref = string

  /** The export kinds a worker reports; NoKind is the empty one of a v1 fetch handler. */
  datatype Kind = Query | Mutation | Action | HttpAction | HttpRouter | NoKind

  datatype Outcome = Succeeded | Failed

  datatype Event<Op> =
    | Open(kind: Kind, parentRef: Ref, projectId: string, uuid: string)
    | Hold(ref: Ref, projectId: string, op: Op)
    | Close(ref: Ref, settled: Outcome)

  type Trace<Op> = seq<Event<Op>>

  /** The ref a scope gets; never empty. */
  function NewRef(uuid: string): (ref: Ref)
    ensures ref != ""
  {
    "t" + uuid
  }

  /** No two calls of `open` drew the same random uuid. */
  ghost predicate WellFormed<Op>(t: Trace<Op>) {
    forall i, j :: 0 <= i < j < |t| && t[i].Open? && t[j].Open? ==> t[i].uuid != t[j].uuid
  }

  ghost predicate Unused<Op>(t: Trace<Op>, uuid: string) {
    forall i :: 0 <= i < |t| && t[i].Open? ==> t[i].uuid != uuid
  }

  // ---------------------------------------------------------------- the specification

  /** The scope the ref names after the first n events: its latest opening not yet followed by a close. */
  ghost function LiveScope<Op>(t: Trace<Op>, n: nat, ref: Ref): (scope: Option<nat>)
    requires n <= |t|
    ensures scope.Some? ==> scope.value < n && t[scope.value].Open? && NewRef(t[scope.value].uuid) == ref
    decreases n, 0
  {
    if n == 0 then None
    else match t[n - 1]
      case Open(_, _, _, uuid) =>
        if NewRef(uuid) == ref && Starts(t, n - 1) then Some(n - 1) else LiveScope(t, n - 1, ref)
      case Hold(_, _, _) => LiveScope(t, n - 1, ref)
      case Close(closed, _) => if closed == ref then None else LiveScope(t, n - 1, ref)
  }

  /** The live scope of that project a ref names. */
  ghost function LiveFor<Op>(t: Trace<Op>, n: nat, ref: Ref, projectId: string): (scope: Option<nat>)
    requires n <= |t|
    ensures scope.Some? ==> scope == LiveScope(t, n, ref) && t[scope.value].projectId == projectId
    decreases n, 1
  {
    match LiveScope(t, n, ref)
    case Some(i) => if t[i].projectId == projectId then Some(i) else None
    case None => None
  }

  /** The parent fixed when event i opened its scope. */
  ghost function Parent<Op>(t: Trace<Op>, i: nat): (parent: Option<nat>)
    requires i < |t| && t[i].Open?
    ensures parent.Some? ==> parent.value < i && t[parent.value].Open? && t[parent.value].projectId == t[i].projectId
    decreases i, 2
  {
    if t[i].parentRef == "" then None else LiveFor(t, i, t[i].parentRef, t[i].projectId)
  }

  /** Event i started a scope: a mutation, or anything called under a live parent. */
  ghost predicate Starts<Op>(t: Trace<Op>, i: nat)
    requires i < |t|
    decreases i, 3
  {
    t[i].Open? && (t[i].kind.Mutation? || Parent(t, i).Some?)
  }

  /** The scope that took the call made at event k, if any did. */
  ghost function HoldScope<Op>(t: Trace<Op>, k: nat): (scope: Option<nat>)
    requires k < |t|
    ensures scope.Some? ==> scope.value < k && t[scope.value].Open? && t[k].Hold?
  {
    if t[k].Hold? then LiveFor(t, k, t[k].ref, t[k].projectId) else None
  }

  /** The first close of scope i among the first n events. */
  ghost function EndOf<Op>(t: Trace<Op>, i: nat, n: nat): (end: Option<nat>)
    requires i < |t| && t[i].Open? && n <= |t|
    ensures end.Some? ==> i < end.value < n && t[end.value].Close? && t[end.value].ref == NewRef(t[i].uuid)
    decreases n
  {
    if n <= i + 1 then None
    else
      var earlier := EndOf(t, i, n - 1);
      if earlier.Some? then earlier
      else if t[n - 1].Close? && t[n - 1].ref == NewRef(t[i].uuid) then Some(n - 1)
      else None
  }

  datatype Fate =
    | Live(scope: nat)
    | Sent(at: nat)
    | Dropped(at: nat)
    | Lost(at: nat)

  /** What has become, after n events, of the calls scope i took. */
  ghost function FateOf<Op>(t: Trace<Op>, i: nat, n: nat): Fate
    requires i < |t| && t[i].Open? && n <= |t|
    decreases i
  {
    match EndOf(t, i, n)
    case None => Live(i)
    case Some(end) =>
      if t[end].settled.Failed? then Dropped(end)
      else match Parent(t, i)
        case None => Sent(end)
        case Some(p) => if EndOf(t, p, end).None? then FateOf(t, p, n) else Lost(end)
  }

  /** Scope i and the scopes it was opened under, innermost first. */
  ghost function Ancestry<Op>(t: Trace<Op>, i: nat): (chain: seq<nat>)
    requires i < |t| && t[i].Open?
    ensures forall a :: a in chain ==> a <= i && t[a].Open?
    decreases i
  {
    match Parent(t, i)
    case None => [i]
    case Some(p) => [i] + Ancestry(t, p)
  }

  /** Scope a has settled "success" and, unless it is a root, did so while its parent was live. */
  ghost predicate Commits<Op>(t: Trace<Op>, a: nat, n: nat)
    requires a < |t| && t[a].Open? && n <= |t|
  {
    var end := EndOf(t, a, n);
    && end.Some?
    && t[end.value].settled.Succeeded?
    && (Parent(t, a).Some? ==> EndOf(t, Parent(t, a).value, end.value).None?)
  }

  /** What scope i has gathered from the first n events: its own calls in order, and each committed
      child's calls as one block at the event that closed the child. */
  ghost function Gathered<Op>(t: Trace<Op>, i: nat, n: nat): seq<Held<Op>>
    requires i < |t| && t[i].Open? && n <= |t|
    decreases n
  {
    if n <= i then []
    else
      Gathered(t, i, n - 1) +
      match t[n - 1]
      case Open(_, _, _, _) => []
      case Hold(_, _, op) => if HoldScope(t, n - 1) == Some(i) then [Held(n - 1, op)] else []
      case Close(ref, settled) =>
        match LiveScope(t, n - 1, ref)
        case None => []
        case Some(child) =>
          if settled.Succeeded? && Parent(t, child) == Some(i) && EndOf(t, i, n - 1).None?
          then Gathered(t, child, n - 1) else []
  }

  // ---------------------------------------------------------------- the table

  /** A held call and the event that made it. */
  datatype Held<Op> = Held(at: nat, op: Op)

  datatype Scope<Op> = Scope(parentRef: Option<Ref>, projectId: string, ops: seq<Op>)

  /** The table, and the calls that left it, filed under the event that closed their scope. */
  datatype Table<Op> = Table(
    scopes: map<Ref, Scope<Held<Op>>>,
    sent: map<nat, seq<Held<Op>>>,
    dropped: map<nat, seq<Held<Op>>>,
    lost: map<nat, seq<Held<Op>>>)

  ghost predicate LiveInTable<Op>(scopes: map<Ref, Scope<Op>>, ref: Ref, projectId: string) {
    ref in scopes && scopes[ref].projectId == projectId
  }

  ghost function Step<Op>(s: Table<Op>, e: Event<Op>, n: nat): Table<Op> {
    match e
    case Open(kind, parentRef, projectId, uuid) =>
      var parentLive := parentRef != "" && LiveInTable(s.scopes, parentRef, projectId);
      if !parentLive && !kind.Mutation? then s
      else s.(scopes := s.scopes[NewRef(uuid) := Scope(if parentLive then Some(parentRef) else None, projectId, [])])
    case Hold(ref, projectId, op) =>
      if LiveInTable(s.scopes, ref, projectId)
      then s.(scopes := s.scopes[ref := s.scopes[ref].(ops := s.scopes[ref].ops + [Held(n, op)])])
      else s
    case Close(ref, settled) =>
      if ref !in s.scopes then s
      else
        var scope := s.scopes[ref];
        var left := s.(scopes := s.scopes - {ref});
        if scope.ops == [] then left
        else if settled.Failed? then left.(dropped := s.dropped[n := scope.ops])
        else match scope.parentRef
          case None => left.(sent := s.sent[n := scope.ops])
          case Some(p) =>
            if p !in left.scopes then left.(lost := s.lost[n := scope.ops])
            else left.(scopes := left.scopes[p := left.scopes[p].(ops := left.scopes[p].ops + scope.ops)])
  }

  /** The table after the first n events. */
  ghost function Run<Op>(t: Trace<Op>, n: nat): Table<Op>
    requires n <= |t|
  {
    if n == 0 then Table(map[], map[], map[], map[]) else Step(Run(t, n - 1), t[n - 1], n - 1)
  }

  /** The calls the table files under a fate. */
  ghost function Place<Op>(t: Trace<Op>, s: Table<Op>, fate: Fate): seq<Held<Op>> {
    match fate
    case Live(i) =>
      if i < |t| && t[i].Open? && NewRef(t[i].uuid) in s.scopes then s.scopes[NewRef(t[i].uuid)].ops else []
    case Sent(c) => if c in s.sent then s.sent[c] else []
    case Dropped(c) => if c in s.dropped then s.dropped[c] else []
    case Lost(c) => if c in s.lost then s.lost[c] else []
  }
}
