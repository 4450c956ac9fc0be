# Verification of the function runtime and the site edge

A Dafny model of the parts of the platform where several things happen at once
or where text decides about access. `dafny verify dfyconfig.toml` checks all
of it.

**Mutation scopes.** A mutation's `ctx.scheduler` calls wait in a scope until
it succeeds; a nested mutation's calls join its caller's scope. This is a
nested-transaction manager. `NestedTransactions` says from a trace of calls
alone what becomes of each held call, and also runs the table;
`NestedTransactionLaws` proves the two the same over every trace.
`MutationScopes` is the table itself, changed in place, proved against the
trace.

**The function runtime.** `RuntimeModel` is a state machine whose steps
interleave freely: deploys before and after their await, deletes, invocations,
nested calls, scheduler calls, replies, error reports, timeouts, crashes, the
continuation of a settled invocation and the end of a send.
`RuntimeInvariants` proves what every step keeps, `RuntimeLaws` and `Outcomes`
which calls are sent and what callers are told over any run, `Settling` what
each message does, `CallTrees` and `NestedCalls` which nested calls go through
and what holds along them, `HttpCalls` and `EvictedMutations` what gets around
that, `DeployCap` the bound on deployed functions. `FunctionRuntime` is the object
whose handlers update the tables; each handler is proved to be one step of the
machine, and the refusal list to know only functions of which no version runs.
`InvokeErrors` follows an error through any number of nested calls.

**The outbound filter of the sites.** `Ipv6`, `Bits`, `Addresses` and `Hosts`
decide about hosts, `ProjectPaths` about API paths, `Outbound` about one
request and `Redirects` about a whole redirect chain. `HostRules` and
`FilterRules` say what these decisions come to without their functions: from
the labels and addresses of a host, and from a request's parts.

**Smaller parts.** `SiteHeaders` rewrites a site's response headers, `Cookies`
decides which cookies it may set, `Refusals` keeps refused deploys and log
rings, `ParseEnv` reads pasted `.env` text. `Text`, `HeaderLists` and
`Wrappers` are shared.

## What the code does where one might expect otherwise

- The read-only matrix looks at one call at a time and asks the script table
  for the caller's kind. When every id is always deployed with one kind there
  are two ways around it, and `CallTrees.QueryCallsIff` gives the exact
  condition of each call. A timeout or a crash takes an id out of the table
  even when a newer version runs under it (deno-server/server.ts:1674,
  deno-server/server.ts:1756), and then a running query may call a mutation
  (`CallTrees.EvictedQueryRunsMutation`). And a query may call an HTTP
  function, which may call a mutation (`HttpCalls.QueryRunsMutationOverHttp`).
- A mutation whose own id was taken out of the table hands its scope on to no
  nested mutation; that one becomes a new top level, and what it schedules is
  sent although its caller then fails
  (`EvictedMutations.EvictedMutationLosesItsChild`;
  `CallTrees.RefIsHandedOnIff` is the condition).
- Nested calls are depth-bounded only through queries, mutations and actions:
  an HTTP function reads its depth from the envelope, while the dispatcher
  puts it in the body, so it starts again from 0 and chains of HTTP functions
  are as long as they like (`HttpCalls.HttpChainsAreUnbounded`).
- `deploy` checks the cap before its await and inserts after it; with k
  deploys in flight the table can hold MAX_SCRIPTS - 1 + k functions.
- A mutation opened after its named parent has ended is a new top-level scope,
  not a lost one; a child that held nothing is never lost.
- A project called auth, functions or storage is reached only on paths that
  start with its id (`ProjectPaths.RoutedIff`).
- Invocations ended by a worker crash are in none of the invocation counters.
- A refusal with an empty message does not keep it: nested callers see the
  default text.
- A second trailing slash makes an accepted path refused, so adding one slash
  changes the answer for a path that ends in one.
- The ids functions and storage never clash with another project's paths; only
  the id auth does, with a project called graphql or api.
- Section 5.2.3 of RFC 6265 ignores an empty Domain attribute; the router
  drops the cookie. Section 5.2 trims spaces and tabs around an attribute, the
  router every JavaScript white space, so `Domain=` with a no-break space
  before the host is kept, while to the standard it names another host.
  `Cookies` says exactly where the two agree.
- `::` may stand for no group at all in the address parser.
- 192.88.99.0/24 (6to4 relay anycast), which section 2.2.2 of RFC 6890 lists
  as global, is let through by the IPv4 filter.
- In the refusal table a clear makes room that older, already dropped refusals
  do not come back to fill, so with clears the table can hold fewer than the
  last capacity distinct ids (`Refusals.ClearCanLeaveGap`), exactly when
  `Refusals.FullThroughoutIff` says.

## Model

| member | source | states |
|---|---|---|
| NestedTransactionLaws.LiveScopeExact | deno-server/runtime/mutation_scopes.ts:29-36 | over every trace a ref names one scope only, from the event that opened it to its first close: refs are never rebound |
| NestedTransactionLaws.TableTracks | deno-server/runtime/mutation_scopes.ts:29-97 | the table holds exactly the live scopes, each with its own project and the parent fixed when it opened |
| NestedTransactionLaws.AncestryIsOneProject | deno-server/runtime/mutation_scopes.ts:29-36 | parent links lead to scopes opened earlier, so they never loop, and a whole ancestry serves one project |
| NestedTransactionLaws.FateAtClose | deno-server/runtime/mutation_scopes.ts:81-91 | where a close sends a scope's calls: dropped on failure, sent for a root, to a live parent, lost when the parent has ended |
| NestedTransactionLaws.HeldStep | deno-server/runtime/mutation_scopes.ts:81-91 | a held call's fate changes only when an event closes the live scope that carries it, and then to what that close makes of the scope |
| NestedTransactionLaws.FateIsFinal | deno-server/runtime/mutation_scopes.ts:81-91 | sent, dropped and lost are final, whatever follows |
| NestedTransactionLaws.PlaceAtClose | deno-server/runtime/mutation_scopes.ts:81-91 | a close moves the whole content of the scope it ends to one place, at its end, and touches no other place |
| NestedTransactionLaws.PlacesAreSound | deno-server/runtime/mutation_scopes.ts:39-91 | nothing stands anywhere it does not belong: no call is invented, sent early or filed under another fate |
| NestedTransactionLaws.PlacesAreComplete | deno-server/runtime/mutation_scopes.ts:39-91 | every call ever taken stands in the place its fate names |
| NestedTransactionLaws.PlacesKeepOrder | deno-server/runtime/mutation_scopes.ts:39-91 | two calls of one scope keep their hold order wherever they travel |
| NestedTransactionLaws.SentIffAncestryCommits | deno-server/runtime/mutation_scopes.ts:29-91 | a call is sent if and only if its scope and every ancestor fixed at opening settled "success", each nested one while its parent was live |
| NestedTransactionLaws.Conservation | deno-server/runtime/mutation_scopes.ts:39-91 | at every point each call taken stands exactly once, in exactly one of: its live scope, one sent batch, one dropped, one lost |
| NestedTransactionLaws.LiveScopeGathers | deno-server/runtime/mutation_scopes.ts:39-91 | a live scope holds its own calls in order, with each committed child's calls as one block where the child settled |
| NestedTransactionLaws.BatchIsGathered | deno-server/runtime/mutation_scopes.ts:81-91 | a sent batch is exactly what its root scope had gathered, and is never empty |
| NestedTransactionLaws.BatchIsOneProject | deno-server/runtime/mutation_scopes.ts:81-96 | every call of a batch was made for the project of the scope whose close sends it, and before that close |
| MutationScopes.ClosingScope | deno-server/runtime/mutation_scopes.ts:81-91 | the entry a close finds: its calls are the gathered ones, and its parent is in the table exactly while that scope is live |
| MutationScopes.CloseHandsOver | deno-server/runtime/mutation_scopes.ts:81-91 | what a close hands over is what is filed as sent under it, nothing if nothing is; it loses calls exactly when some are filed as lost |
| MutationScopes.HandedOverIffAncestryCommits | deno-server/runtime/mutation_scopes.ts:29-91 | over every trace a held call is handed over by some close if and only if its scope and every ancestor settled "success", each nested one while its parent was live |
| MutationScopes.HandedOverOnce | deno-server/runtime/mutation_scopes.ts:81-91 | and by one close only, once |
| MutationScopes.MutationScopes.constructor | deno-server/runtime/mutation_scopes.ts:22-23 | an empty table for the empty trace |
| MutationScopes.MutationScopes.Open | deno-server/runtime/mutation_scopes.ts:29-36 | the table is again the one the trace specifies; a ref is returned exactly when the trace says a scope starts (a mutation, or anything with a live parent) |
| MutationScopes.MutationScopes.Add | deno-server/runtime/mutation_scopes.ts:39-44 | the same for a held call; true exactly when the trace names a live scope of that project |
| MutationScopes.MutationScopes.Hold | deno-server/runtime/mutation_scopes.ts:47-51 | fails exactly when no live scope takes the call |
| MutationScopes.MutationScopes.Close | deno-server/runtime/mutation_scopes.ts:81-91 | hands over exactly the batch the table files as sent under this close, in order, and says "lost" exactly when it files one as lost |
| MutationScopes.MutationScopes.Settle | deno-server/runtime/mutation_scopes.ts:58-78 | sends that batch and ends as lost, unrecorded or ok exactly by the trace and by whether the send resolved |
| RuntimeInvariants.NextKeepsInv | deno-server/server.ts:1398-1839 | every step keeps the runtime's invariant: pending requests, numbering, scope ownership and counters |
| RuntimeInvariants.InvHolds | deno-server/server.ts:1398-1839 | so does every run of freely interleaved steps |
| RuntimeLaws.InvocationSettlesOnce | deno-server/server.ts:1645-1662 | over every run a call gets at most one answer, one close and one result, and keeps everything fixed at its start |
| RuntimeLaws.LateMessagesChangeNothing | deno-server/server.ts:1645-1649 | a reply, report or timeout after settling changes no table at all |
| RuntimeLaws.WaitingCallIsSettledBy | deno-server/server.ts:1739-1761 | a waiting call is settled by its own answer, no other call is touched, and its number is below the next one |
| Settling.ReplyResolves | deno-server/server.ts:1648-1657 | a reply resolves the waiting call with its response, a missing status read as 200; nothing else changes and no id leaves the table |
| Settling.ReportRejects | deno-server/server.ts:1658-1661 | a reported error rejects it with its text, or "worker error" for none; no id leaves the table |
| Settling.TimeoutRejects | deno-server/server.ts:1742-1758 | a timeout rejects it, and takes its id out of the table if and only if no other call waits on the same version |
| Settling.CrashRejects | deno-server/server.ts:1666-1675 | a crash rejects exactly the calls that wait on the version, counts none of them, and takes its id out of the table |
| Settling.NothingElseSettles | deno-server/server.ts:1645-1675 | no other step settles a waiting call |
| Outcomes.SucceedsIff | deno-server/server.ts:1771-1777 | an invocation succeeds if and only if it was answered with a status from 200 to 299 and no top-level error text |
| Outcomes.ThrowFails | deno-server/server.ts:1766-1777 | whatever a handler throws, and however many uncaught hops away, its invocation does not succeed |
| Outcomes.ClosesAsAnswered | deno-server/server.ts:1762-1778 | every call closes its own scope, with "success" exactly for such an answer |
| Outcomes.ThrowSendsNothing | deno-server/server.ts:1762-1778 | if a mutation's handler throws, nothing its scope ever carried is sent in any later run |
| Outcomes.ScheduledCallIsHeldIff | deno-server/server.ts:1314-1316 | a scheduler call of an invocation with a scope is held by that scope until the invocation closes it, and by none afterwards |
| Outcomes.HeldCallIsHandedOverIff | deno-server/server.ts:1734-1737 | over every run a held call is handed over by some invocation's close if and only if its scope and all ancestors succeeded in time |
| Outcomes.HeldCallIsHandedOverOnce | deno-server/server.ts:1734-1737 | and by one invocation only, once |
| Outcomes.HandedOverStays | deno-server/server.ts:1734-1737 | what a close handed over is settled then, whatever follows |
| Outcomes.CallerIsTold | deno-server/server.ts:1762-1790 | what the caller of any closed call is told: its rejection; its response if it had nothing to send; the 500 if its calls were lost; with a batch its response exactly once that is acknowledged |
| Outcomes.CallerHearsOfTheSend | deno-server/server.ts:1734-1790 | over every run, for every call with a batch: acknowledged, and answered with its own response, if and only if its send resolved; answered with the 500 if and only if the send was refused; still waiting if and only if neither |
| RuntimeLaws.CountersAreExact | deno-server/server.ts:1650-1661 | over every run each counter is the number of calls settled that way, so timeouts <= errors <= total <= calls |
| RuntimeLaws.ScopesAreInvocationsInFlight | deno-server/server.ts:1725-1737 | the scope table holds a ref exactly when an invocation that has not closed its scope carries it |
| RuntimeLaws.InvocationsHaveTheirOwnScope | deno-server/server.ts:1725-1725 | no two invocations share a scope |
| RuntimeLaws.NoScopeOutlivesItsInvocations | deno-server/server.ts:1731-1737 | with nothing in flight no scope is left |
| RuntimeLaws.ReachableStates | deno-server/server.ts:1711-1790 | every reachable state satisfies the invariant and the one on results that the next four assume |
| RuntimeLaws.CarriesIffGathered | deno-server/runtime/mutation_scopes.ts:81-91 | a scope carries at its close exactly what it gathered: its own calls and those merged from its children |
| RuntimeLaws.OwnCallsAreCarried | deno-server/runtime/mutation_scopes.ts:39-44 | a call's own scheduler calls are always among them |
| RuntimeLaws.SuccessMeansRecorded | deno-server/server.ts:1767-1790 | a success is returned only if each call its scope carried, own or merged, was in an acknowledged send or passed to a parent live at the close |
| RuntimeLaws.FailureSendsNothing | deno-server/server.ts:1762-1778 | if a call was rejected, or answered without a 2xx status or with an error text, nothing its scope ever carried, merged children included, is sent in any later run |
| RuntimeLaws.BatchGoesToItsProject | deno-server/server.ts:1722-1737 | a batch goes out under its invocation's project and holds that project's calls only |
| RuntimeLaws.BatchHasItsCall | deno-server/server.ts:1734-1737 | every batch was sent by the close of one succeeded call |
| FunctionRuntime.FunctionRuntime.constructor | deno-server/server.ts:1398-1400 | empty tables are the initial state, with no refusal recorded |
| FunctionRuntime.FunctionRuntime.StartDeploy | deno-server/server.ts:1402-1417 | one step of the state machine; refused exactly at the cap for a new id |
| FunctionRuntime.FunctionRuntime.FinishDeploy | deno-server/server.ts:1498-1527 | one step: the new version replaces the old, which keeps its own requests; the id's refusal is cleared |
| FunctionRuntime.FunctionRuntime.AbandonDeploy | deno-server/server.ts:1684-1692 | one step: the script table stays; blamed code is recorded as refused exactly when no version runs, and else logged to the one that does |
| FunctionRuntime.FunctionRuntime.Delete | deno-server/server.ts:1792-1799 | one step; true exactly when the id was deployed or its refusal known, and both are forgotten |
| FunctionRuntime.FunctionRuntime.InvokeOnce | deno-server/server.ts:1711-1761 | numbers the request, opens its scope and registers it, and nothing else |
| FunctionRuntime.FunctionRuntime.Invoke | deno-server/server.ts:1701-1705 | one step; none exactly when the id is not deployed |
| FunctionRuntime.FunctionRuntime.ResolveRunX | deno-server/server.ts:1187-1236 | the checks of a nested call pass exactly under the condition NestedCalls.GoesThrough spells out, with the target and ref of the state machine |
| FunctionRuntime.FunctionRuntime.DispatchRunX | deno-server/server.ts:1187-1261 | one step, with the callee's invocation started exactly under that condition |
| FunctionRuntime.FunctionRuntime.DispatchScheduler | deno-server/server.ts:1303-1320 | one step: held by a live scope, sent at once without a ref; refused exactly without a context, without a project, or when the ref names no live scope |
| FunctionRuntime.FunctionRuntime.Settle | deno-server/server.ts:1645-1661 | settles the pending request of that number, if any, and changes nothing otherwise |
| FunctionRuntime.FunctionRuntime.OnReply | deno-server/server.ts:1645-1657 | one step of the state machine |
| FunctionRuntime.FunctionRuntime.OnReportedError | deno-server/server.ts:1658-1661 | one step of the state machine, which Settling.ReportRejects tells in full |
| FunctionRuntime.FunctionRuntime.OnTimeout | deno-server/server.ts:1742-1758 | one step, which Settling.TimeoutRejects tells in full |
| FunctionRuntime.FunctionRuntime.RejectPending | deno-server/server.ts:1668-1672 | the loop rejects exactly the version's pending requests |
| FunctionRuntime.FunctionRuntime.OnCrash | deno-server/server.ts:1666-1675 | one step: all its requests rejected, its id evicted |
| FunctionRuntime.FunctionRuntime.Resume | deno-server/server.ts:1762-1790 | one step: closes the scope and returns exactly the batch filed as sent under that close |
| FunctionRuntime.FunctionRuntime.OnSendEnd | deno-server/server.ts:1778-1790 | one step: the handler's own response if the send resolved, the 500 if it was refused |
| CallTrees.TargetKeepsProject | deno-server/server.ts:1191-1196 | the id a nested call is sent to is in the caller's project |
| CallTrees.ProjectPartIff | deno-server/server.ts:1191-1195 | an id's project part is all before its first two underscores in a row, and there is none if and only if it has no such two |
| CallTrees.NextKeepsOrigins | deno-server/server.ts:1187-1261 | every step keeps what nested calls record: caller before callee, kind matrix, project, ref and depth |
| CallTrees.ReachableTrees | deno-server/server.ts:1187-1261 | so does every run |
| CallTrees.QueriesCallQueries | deno-server/server.ts:1214-1227 | with fixed kinds, typed targets and callers still in the table, everything beneath a query is a query |
| CallTrees.QueryCallsIff | deno-server/server.ts:1187-1227 | exactly which calls of a query go through: within the bound, to a function held, which is no mutation or action unless the query's own id has left the table |
| CallTrees.QueryEscapesIffEvicted | deno-server/server.ts:1214-1227 | so a query's direct call to a mutation or action goes through if and only if the query's own id has left the table |
| NestedCalls.CallGoesThroughIff | deno-server/server.ts:1187-1227 | a nested call of any caller is allowed if and only if it has a ctx, names a module, keeps within the depth bound and its project has that function, unless the table runs the caller as a query and the target as a mutation or an action |
| NestedCalls.NestedCallStarts | deno-server/server.ts:1196-1261 | the call it then starts, in full: version, project, depth, and the caller's ref exactly when the table runs both as mutations |
| NestedCalls.InvokeStarts | deno-server/server.ts:1701-1761 | the same of a request from outside |
| NestedCalls.NestedMutationJoins | deno-server/server.ts:1228-1236 | a run in which a mutation hands its ref to another one, whose scheduled call goes out with the first one's close if that succeeds and not at all if it fails |
| CallTrees.EvictedQueryRunsMutation | deno-server/server.ts:1753-1757 | a run that gets there: a stale timeout evicts a redeployed query, whose new version then calls a mutation |
| CallTrees.DepthBoundsHops | deno-server/server.ts:599-626 | each typed hop adds one to the depth, so a chain from depth 0 has at most RUN_MAX_DEPTH hops |
| CallTrees.HopCostsDepthIffTyped | deno-server/server.ts:809-820 | a typed target costs one of RUN_MAX_DEPTH - depth and any other starts again from 0, so that the measure goes down if and only if the target is typed or the caller's depth was negative |
| CallTrees.RefPassesBetweenMutations | deno-server/server.ts:1228-1236 | a callee is handed a ref if and only if both ends are mutations and the table still held the caller, and then its caller's |
| CallTrees.RefIsHandedOnIff | deno-server/server.ts:1228-1236 | the same told before the call, from the kinds and the script table |
| EvictedMutations.EvictedMutationLosesItsChild | deno-server/server.ts:1753-1757 | a run where it is not: a mutation whose id was evicted calls another, whose scheduled call is sent although the first then fails |
| CallTrees.ScopeChainFollowsCalls | deno-server/runtime/mutation_scopes.ts:29-36 | a nested call's scope has a parent exactly when it was handed a ref whose scope was live, and the parent is its caller's scope |
| CallTrees.ScopesAlongPath | deno-server/runtime/mutation_scopes.ts:29-36 | along a path on which every call opened with a parent the scopes are an ancestry |
| CallTrees.FailureReachesDown | deno-server/server.ts:1762-1778 | so if a mutation fails, nothing scheduled beneath it on such a path is sent in any later run |
| CallTrees.OnlyMutationsHold | deno-server/server.ts:1303-1319 | any activation, from outside or nested, has a scope if and only if it runs a mutation or was handed a live ref; without one its scheduler calls go out at once under its own project |
| HttpCalls.HttpChainsAreUnbounded | deno-server/server.ts:809-820 | for every depth bound and every n a run in which an HTTP function calls itself n hops deep |
| HttpCalls.QueryRunsMutationOverHttp | deno-server/server.ts:1214-1227 | a run in which a query calls an HTTP function and that a mutation, with every id in the table |
| DeployCap.ScriptsStayWithinCap | deno-server/server.ts:1412-1417 | with at most k deploys in flight the table stays within MAX_SCRIPTS - 1 + k over every run |
| DeployCap.CapHolds | deno-server/server.ts:1498-1527 | the same from the empty runtime: the stated cap when deploys do not overlap |
| DeployCap.CapIsReached | deno-server/server.ts:1412-1417 | the bound is tight: for every k > 0 some run reaches it, so two overlapping deploys pass the stated cap |
| InvokeErrors.HopIsCaught | deno-server/runtime/invoke_errors.ts:28-52 | one uncaught hop, composed of worker answer, dispatcher error, envelope and rethrow, has one of three outcomes told from the throw |
| InvokeErrors.TransportIsStable | deno-server/runtime/invoke_errors.ts:21-52 | over any number of hops validation keeps 400 and its issues, a refusal its status and message, a crash its text |
| InvokeErrors.KindSurvives | deno-server/server.ts:497-509 | no hop turns one kind of failure into another; only crashes are marked failed |
| InvokeErrors.CallerReads | deno-server/runtime/invoke_errors.ts:28-52 | the same outcomes with every name, status and text written out, the default ones included |
| InvokeErrors.CallerCatches | deno-server/runtime/invoke_errors.ts:30-52 | what a calling handler catches of any failed answer: its issues, its 4xx status or neither, with its error text, its body or its status for a message |
| InvokeErrors.InvokeReceives | deno-server/runtime/invoke_errors.ts:21-26 | what the caller of /invoke receives of any throw at any depth, told from the throw alone; an answer that is no crash passes unchanged |
| InvokeErrors.RefusalKeptIffMessage | deno-server/runtime/invoke_errors.ts:30-40 | a refusal's message survives if and only if it is not empty |
| InvokeErrors.CrashIsHiddenFromInvoke | deno-server/runtime/invoke_errors.ts:23-26 | the caller of /invoke gets the same fixed body for any crash at any depth, while nested callers read its text |
| InvokeErrors.RejectionIsCrash | deno-server/server.ts:1245-1251 | a rejection on the main thread reaches every caller above as a crash with that text |
| Ipv6.ExpandInvertsPrint | edge/sites-outbound/src/index.js:262-281 | every spelling of an address (eight groups or one "::", any case, any leading zeros) parses to it |
| Ipv6.ExpandAcceptsSpellingsOnly | edge/sites-outbound/src/index.js:262-281 | whatever parses is a spelling of its result: eight groups below 65536 |
| Ipv6.ExpandIff | edge/sites-outbound/src/index.js:262-281 | a text parses to some groups if and only if it is one of their spellings |
| Ipv6.ExpandInvertsHex | edge/sites-outbound/src/index.js:262-281 | eight numbers printed in hex are read back, with zeros left out or written |
| Bits.AndWithHighOnes | edge/sites-outbound/src/index.js:238-241 | bitwise "and" with ones from bit k up clears exactly the bits below it |
| Bits.MaskIsPrefix | edge/sites-outbound/src/index.js:238-238 | the signed shift gives the prefix mask for every length 1..32 |
| Bits.SamePrefixIsInterval | edge/sites-outbound/src/index.js:235-241 | the mask test is membership in the aligned interval, for every prefix length 1..32 |
| Addresses.Ipv4Iff | edge/sites-outbound/src/index.js:219-226 | a host is read as octets if and only if it is four tokens of one to three digits, none above 255 |
| Addresses.Ipv4InvertsDotted | edge/sites-outbound/src/index.js:219-226 | printing four octets and reading them gives them back |
| Addresses.BlockIsRange | edge/sites-outbound/src/index.js:235-241 | one block's test is membership in the range it stands for |
| Addresses.ListsAgree | edge/sites-outbound/src/index.js:229-232 | each block of the source is an aligned range, given by its first and last address |
| Addresses.OutsideBlocksIffPublic | edge/sites-outbound/src/index.js:234-244 | for every address all tests together amount to membership in none of those ranges |
| Addresses.ReservedIffNotGlobal | edge/sites-outbound/src/index.js:229-232 | the ranges together are exactly multicast and the entries of section 2.2.2 of RFC 6890 that are not global |
| Addresses.PublicIffGlobal | edge/sites-outbound/src/index.js:234-244 | so an address passes if and only if it is no multicast and in no entry that is not global |
| Addresses.RelayAnycastPasses | edge/sites-outbound/src/index.js:229-244 | the section's one global entry, 192.88.99.0/24, passes whole |
| Addresses.PublicIpv4 | edge/sites-outbound/src/index.js:234-244 | the loop answers true exactly for those addresses |
| Hosts.PublicIpv6IsGlobalUnicast | edge/sites-outbound/src/index.js:247-260 | however spelled, an address is public exactly when its number lies in 2000::/3 outside three ranges |
| Hosts.RootDotIsIgnored | edge/sites-outbound/src/index.js:106-111 | a name with a root-zone dot is matched as the name without it, which is matched as itself in lower case |
| HostRules.CanonicalHostIff | edge/sites-outbound/src/index.js:106-111 | a URL names a host if and only if that is its hostname, or the hostname less its last dot, in lower case and with no empty label; none if and only if the hostname is empty, starts with a dot or has two in a row |
| HostRules.WrittenNames | edge/sites-outbound/src/index.js:106-111 | labels in any case, with a dot behind them or without, name the host of the same labels in lower case |
| HostRules.BlockedIff | edge/sites-outbound/src/index.js:208-217 | a host is blocked if and only if it is a local name, a bracketed text that spells no global unicast address, or a dotted quad that is not global |
| HostRules.LocalNameIff | edge/sites-outbound/src/index.js:209-209 | the pattern for local names amounts to a condition on the last label |
| HostRules.PlatformNameIff | edge/sites-outbound/src/index.js:196-205 | a name is the platform's if and only if some entry without a colon is that name, or starts with a dot and its labels are the last ones of the name |
| HostRules.EntrySpellsLiteral | edge/sites-outbound/src/index.js:199-203 | an entry lists a literal if and only if both spell one address, brackets or not |
| HostRules.WrittenLiteralIff | edge/sites-outbound/src/index.js:106-111 | an IPv6 literal in any case, with a dot behind it or without, is blocked if and only if its address is not global unicast |
| HostRules.WrittenQuadIff | edge/sites-outbound/src/index.js:106-111 | a dotted quad, with a dot behind it or without, if and only if its address is not global or multicast |
| HostRules.WrittenNameIff | edge/sites-outbound/src/index.js:106-111 | any other name if and only if it is localhost or below, or below local or internal, in any case |
| Hosts.PlatformLiteralIff | edge/sites-outbound/src/index.js:196-205 | a literal is the platform's if and only if some entry spells the same address |
| Hosts.DecisionsIgnoreSpelling | edge/sites-outbound/src/index.js:196-217 | two spellings of one address are always judged alike |
| Hosts.BlockedLiteralIff | edge/sites-outbound/src/index.js:208-217 | an IPv6 literal is blocked if and only if its number is not global unicast |
| Hosts.BlockedQuadIff | edge/sites-outbound/src/index.js:208-217 | a dotted quad is blocked if and only if its address is multicast or in an entry of section 2.2.2 of RFC 6890 that is not global |
| ProjectPaths.OwnPathIff | edge/sites-outbound/src/index.js:134-151 | a path is accepted if and only if it is a project route of plain segments with at most one trailing slash |
| ProjectPaths.RoutedIff | edge/sites-outbound/src/index.js:140-151 | the project routes by their segments; a project with a service's name has only those that start with its id |
| ProjectPaths.PlainIff | edge/sites-outbound/src/index.js:129-131 | a segment is plain if and only if it is made of the unreserved characters of section 2.3 of RFC 3986 and starts with no dot |
| ProjectPaths.OneTrailingSlash | edge/sites-outbound/src/index.js:135-136 | one more slash is accepted exactly where the path was accepted and had none |
| ProjectPaths.AcceptedPathsAreNormal | edge/sites-outbound/src/index.js:129-151 | an accepted path is a fixed point of remove_dot_segments (section 5.2.4 of RFC 3986) and has no empty interior segment |
| ProjectPaths.OneOwner | edge/sites-outbound/src/index.js:140-151 | two projects own one path only if one id is "auth" and the other "graphql" or "api" |
| ProjectPaths.OwnersAreSeparateIff | edge/sites-outbound/src/index.js:140-151 | two ids share no path if and only if they are not such a pair |
| HeaderLists.ValuesOfPut | edge/sites-router/src/index.js:205-211 | setting a header leaves it that value and every other name its values |
| Outbound.ApiHeaders | edge/sites-outbound/src/index.js:155-164 | the loop keeps exactly the headers that name no caller, in order |
| Outbound.CheckRequest | edge/sites-outbound/src/index.js:80-122 | the deletions give exactly what the specification of one hop says, which FilterRules tells in full |
| FilterRules.VerdictIs | edge/sites-outbound/src/index.js:80-102 | what every URL's check comes to, reason by reason, told from its parts and the host it names |
| FilterRules.LetThroughIff | edge/sites-outbound/src/index.js:80-102 | a request is let through if and only if it goes over the web and names a public host that is the API host, on the project's own paths, or else none of the platform's |
| FilterRules.LiteralIsRefusedIff | edge/sites-outbound/src/index.js:88-91 | a URL with an IPv6 literal, with a dot behind it or without, is refused for its address if and only if that is not global unicast |
| FilterRules.QuadIsRefusedIff | edge/sites-outbound/src/index.js:88-91 | one with a dotted quad if and only if its address is not global or multicast |
| FilterRules.NameIsRefusedIff | edge/sites-outbound/src/index.js:88-91 | one with another name if and only if that is local |
| FilterRules.ApiHostIsHeld | edge/sites-outbound/src/index.js:92-97 | however the API host is written, its requests go through exactly on the project's own paths, and without any header that speaks for a caller |
| Outbound.Redirect | edge/sites-outbound/src/index.js:169-187 | the deletions give exactly the next request, or none when a body would be sent again |
| Redirects.Send | edge/sites-outbound/src/index.js:38-63 | the loop makes exactly the fetches of the recursive specification and ends as it does |
| Redirects.FetchesAreFew | edge/sites-outbound/src/index.js:40-62 | at most MAX_REDIRECTS + 1 fetches, all of them when giving up, one unless following; a passed-on answer is the last fetch's |
| Redirects.CheckedIsAllowed | edge/sites-outbound/src/index.js:80-122 | a checked request meets every condition of the filter, differs in headers only, and passes again unchanged |
| Redirects.FetchesAreAllowed | edge/sites-outbound/src/index.js:38-63 | so does every fetch of every hop |
| Redirects.HopsFollowAnswers | edge/sites-outbound/src/index.js:169-187 | a later fetch goes where the answer pointed, has no body, and changes method only as section 15.4 of RFC 9110 allows |
| Redirects.BodyIsSentOnce | edge/sites-outbound/src/index.js:183-186 | a body is sent by the first fetch only |
| Redirects.HeadersSent | edge/sites-outbound/src/index.js:169-187 | exactly which headers any fetch carries, told from the original request and the hops before |
| FilterRules.HeaderIsSent | edge/sites-outbound/src/index.js:153-187 | the same name by name, with the names written out: the original's values or none |
| FilterRules.AfterOneFetch | edge/sites-outbound/src/index.js:45-60 | an answer is followed if and only if the mode is follow, the status one of five, a location given and the body gone or dropped; what is asked for next, and how the send ends otherwise |
| FilterRules.HowASendEnds | edge/sites-outbound/src/index.js:38-63 | how every send ends, told from its last fetch and the answer to it |
| Redirects.CredentialsStayHome | edge/sites-outbound/src/index.js:172-176 | after any cross-origin hop no later fetch carries a credential, even back at the first origin |
| Cookies.CookieStaysOnHost | edge/sites-router/src/index.js:225-236 | the early-exit loop decides whether every Domain attribute, as the router reads it, names the host |
| Cookies.AttributesAreSplit | edge/sites-router/src/index.js:226-226 | splitting at semicolons yields the attributes of section 5.2 of RFC 6265 |
| Cookies.ReadAlikeIff | edge/sites-router/src/index.js:227-229 | the router and section 5.2.3 read one attribute alike if and only if it is no Domain attribute, or one that is not empty and has only spaces and tabs around name and value |
| Cookies.StaysOnHostIff | edge/sites-router/src/index.js:225-236 | where all Domain attributes are so written, a cookie stays if and only if, to the standard, each names the host |
| Cookies.KeptAsTheStandardIff | edge/sites-router/src/index.js:225-236 | of the cookies the router keeps, the standard allows exactly those without other white space around a Domain value |
| Cookies.DroppedByTheRouterIff | edge/sites-router/src/index.js:225-236 | of the cookies the standard allows, the router keeps exactly those where what only it takes for a Domain names the host |
| Cookies.KeptAgainstTheStandard | edge/sites-router/src/index.js:229-229 | an input kept against the standard: other white space before the host |
| Cookies.DroppedAgainstTheStandard | edge/sites-router/src/index.js:229-232 | an input dropped against the standard: an empty Domain |
| SiteHeaders.SiteHeaders | edge/sites-router/src/index.js:196-220 | the in-place edits give the specified list |
| SiteHeaders.WhatIsCarried | edge/sites-router/src/index.js:196-220 | the values under every name: own headers set, exactly the staying cookies in order, nothing reserved from code, all else as it was |
| SiteHeaders.ReservedIff | edge/sites-router/src/index.js:25-27 | the names code may not set, by their prefixes |
| SiteHeaders.ForSiteTwice | edge/sites-router/src/index.js:196-220 | passing an answer through twice is passing it once, order included |
| Refusals.TableIsNewestLive | deno-server/runtime/refusals.ts:20-41 | after any run the table is a newest part of the latest uncleared records in recency order, within capacity; with records only, the last capacity distinct ids |
| Refusals.HeldIffFewNewer | deno-server/runtime/refusals.ts:20-41 | after any run, clears included, a live record is in the table if and only if at every point since it was recorded fewer than capacity newer records were live |
| Refusals.NothingMissingIff | deno-server/runtime/refusals.ts:20-41 | at every point of a run the table holds all live records if and only if at every point they fit |
| Refusals.ClearStaysFullIff | deno-server/runtime/refusals.ts:37-40 | a clear leaves the table with the last capacity live ids if and only if all live ids had fitted or the id was not in the table |
| Refusals.FullThroughoutIff | deno-server/runtime/refusals.ts:20-41 | the table holds the last capacity live ids at every point of a run, clears included, if and only if that holds of each of its clears |
| Refusals.ClearCanLeaveGap | deno-server/runtime/refusals.ts:37-40 | a run where it fails: of two ids the older is dropped, and clearing the newer leaves none |
| Refusals.DeployRefusals.NewEntry | deno-server/runtime/refusals.ts:15-18 | the line is the longest prefix of the notice that fits |
| Refusals.DeployRefusals.Record | deno-server/runtime/refusals.ts:20-28 | one more record on the run the table stands for |
| Refusals.DeployRefusals.Clear | deno-server/runtime/refusals.ts:37-40 | one more clear on it; true exactly when the id was known |
| Refusals.DeployRefusals.Logs | deno-server/runtime/refusals.ts:30-35 | none exactly for an unknown id, else its entry unless it is not after the given time |
| Refusals.Log.Append | deno-server/runtime/refusals.ts:43-47 | the log is the longest suffix of everything appended that fits |
| ParseEnv.EntryIff | frontend/src/pages/EdgeFunctionsPage.tsx:34-62 | a line is read as an entry if and only if the grammar of a line gives it that key and value |
| ParseEnv.IgnoredIff | frontend/src/pages/EdgeFunctionsPage.tsx:39-40 | a line is ignored if and only if it is blank or its first character that is no space is a hash |
| ParseEnv.ErrorIs | frontend/src/pages/EdgeFunctionsPage.tsx:41-58 | any other line that is no entry is told its equals sign is missing if it has none or has it where the key should be, and else which key is invalid |
| ParseEnv.UnquotedIff | frontend/src/pages/EdgeFunctionsPage.tsx:48-54 | a value loses one pair of double or single quotes around it and nothing else |
| ParseEnv.LinesAreFound | frontend/src/pages/EdgeFunctionsPage.tsx:37-37 | lines are found again whichever of the two line ends follows each |
| ParseEnv.LineOrder | frontend/src/pages/EdgeFunctionsPage.tsx:34-62 | every line counts once, as ignored, entry or error, and its yield stands after that of the lines before |
| ParseEnv.ParseEnv | frontend/src/pages/EdgeFunctionsPage.tsx:34-62 | the loop yields the entries and errors of the lines, in order |
| ParseEnv.ParseInvertsPrint | frontend/src/pages/EdgeFunctionsPage.tsx:34-62 | entries printed as KEY="value" lines parse back to themselves without an error |

## Left out

- HTTP plumbing: routing, payload limits, the gateway and the provisioning client. A send resolves or is refused.
- Worker internals: module loading, the console, the secret shim and argument checks. A worker is any source of replies.
- JSON and URL parsing: bodies and URLs come parsed. A body's top-level `error` that is not a string counts as absent.
- Requests the fetch API itself rejects, such as a redirect target with a user name in it.
- Real time: a timeout is a step that may come at any moment; log times are given numbers.
- `crypto.randomUUID`: each opening brings its own uuid, and no uuid comes twice.
- The shape checks of `deploy` (id, code size, allowed hosts) and of scheduler payloads.
- RUN_MAX_DEPTH is a parameter; a configured value that is no number is not modelled.
- Export kinds are the five known ones and none; another text a worker reports counts as none.
- Script objects and pending promises live in numbered tables, so object identity is a number.
- The order in which a crash rejects several requests: all are rejected within one step.
- The log ring of a running version hangs on no version in the model; what a refused deploy adds to it is returned.
- The Headers object iterates in sorted order with equal names combined; the model keeps the list as given.
- Lower-casing covers ASCII letters, which is all a parsed host name holds.
- MutationScopes.MutationScopes.Settle: does not model the warning lines it logs.
- CallTrees.QueriesCallQueries: asks for typed targets and that each caller was in the script table; without either it is false of the code, as the two runs above show.
- CallTrees.DepthBoundsHops: speaks of chains of queries, mutations and actions, because an HTTP target resets the depth.
- `storage.ts`, `ids.ts`, `handler_contract.ts`, `outbound_denied.ts` and `shutdown.ts`: short validation.
- `forwardable` and `withSiteHeaders`: copy headers one by one around the modelled rewriting.
- `siteLabel`, `previewLabel`, `hostKey`, `hostEntry`, `platformHosts` and `parseAllowedHosts`: one-branch checks.
- The vault and the rest of the frontend.
