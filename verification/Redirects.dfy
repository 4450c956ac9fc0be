/** The redirect loop: what holds of every fetch of a send, whatever the answers are. */
module Redirects {
  import opened Wrappers
  import opened HeaderLists
  import opened Hosts
  import opened ProjectPaths
  import opened Outbound

  /** The fetches a send made, in order, and how it ended. */
  datatype Sending<Body> = Sending(fetches: seq<Request<Body>>, outcome: Outcome)

  /** Everything that follows from asking for a request at some hop; answers says what each hop's fetch answers. */
  function Follow<Body>(request: Request<Body>, mode: Mode, rules: Rules, answers: nat -> Answer, hop: nat): Sending<Body>
    decreases MAX_REDIRECTS + 1 - hop
  {
    if hop > MAX_REDIRECTS then Sending([], TooManyRedirects)
    else
      match Checked(request, rules)
      case Refuse(reason) => Sending([], Refused(reason))
      case Go(checked) =>
        match After(request, mode, answers(hop), hop)
        case Failure(outcome) => Sending([checked], outcome)
        case Success(next) =>
          var rest := Follow(next, mode, rules, answers, hop + 1);
          Sending([checked] + rest.fetches, rest.outcome)
  }

  /** The next request to ask for, or how the send ends. */
  function After<Body>(request: Request<Body>, mode: Mode, answer: Answer, hop: nat): Result<Request<Body>, Outcome> {
    match answer
    case NetworkError => Failure(Thrown)
    case Answer(status, location) =>
      if mode == RedirectIsError && IsRedirect(status) then Failure(Thrown)
      else if mode != FollowRedirects || !IsRedirect(status) || location.None? then Failure(Response(hop))
      else
        match Redirected(request, status, location.value)
        case None => Failure(Response(hop))
        case Some(next) => Success(next)
  }

  /** One turn of the loop, after a prefix of fetches. */
  lemma Turn<Body>(
    before: seq<Request<Body>>, request: Request<Body>, mode: Mode, rules: Rules, answers: nat -> Answer, hop: nat, whole: Sending<Body>)
    requires hop <= MAX_REDIRECTS + 1
    requires whole.fetches == before + Follow(request, mode, rules, answers, hop).fetches
    requires whole.outcome == Follow(request, mode, rules, answers, hop).outcome
    ensures hop == MAX_REDIRECTS + 1 ==> whole == Sending(before, TooManyRedirects)
    ensures hop <= MAX_REDIRECTS && Checked(request, rules).Refuse? ==>
      whole == Sending(before, Refused(Checked(request, rules).reason))
    ensures hop <= MAX_REDIRECTS && Checked(request, rules).Go? ==>
      (var sent := before + [Checked(request, rules).request];
       match After(request, mode, answers(hop), hop)
       case Failure(outcome) => whole == Sending(sent, outcome)
       case Success(next) =>
         whole.fetches == sent + Follow(next, mode, rules, answers, hop + 1).fetches
         && whole.outcome == Follow(next, mode, rules, answers, hop + 1).outcome)
  {
    hide Checked, After;
  }

  /** send */
  method Send<Body>(original: Request<Body>, mode: Mode, rules: Rules, answers: nat -> Answer)
    returns (fetches: seq<Request<Body>>, outcome: Outcome)
    ensures Sending(fetches, outcome) == Follow(original, mode, rules, answers, 0)
  {
    hide Checked, Redirected, IsRedirect, Follow;
    ghost var whole := Follow(original, mode, rules, answers, 0);
    var request := original;
    fetches := [];
    for hop := 0 to MAX_REDIRECTS + 1
      invariant |fetches| == hop
      invariant whole.fetches == fetches + Follow(request, mode, rules, answers, hop).fetches
      invariant whole.outcome == Follow(request, mode, rules, answers, hop).outcome
    {
      Turn(fetches, request, mode, rules, answers, hop, whole);
      var check := CheckRequest(request, rules);
      if check.Refuse? {
        return fetches, Refused(check.reason);
      }
      fetches := fetches + [check.request];
      var answer := answers(hop);
      if answer.NetworkError? {
        return fetches, Thrown;
      }
      if mode == RedirectIsError && IsRedirect(answer.status) {
        return fetches, Thrown;
      }
      if mode != FollowRedirects {
        return fetches, Response(hop);
      }
      if !IsRedirect(answer.status) || answer.location.None? {
        return fetches, Response(hop);
      }
      var next := Redirect(request, answer.status, answer.location.value);
      if next.None? {
        return fetches, Response(hop);
      }
      request := next.value;
    }
    Turn(fetches, request, mode, rules, answers, MAX_REDIRECTS + 1, whole);
    return fetches, TooManyRedirects;
  }

  // ---------------------------------------------------------------- how many

  /** A send makes at most MAX_REDIRECTS + 1 fetches, all of them only when it gives up, and one unless it follows;
      an answer it passes on is that of its last fetch. */
  lemma {:induction false} FetchesAreFew<Body>(request: Request<Body>, mode: Mode, rules: Rules, answers: nat -> Answer, hop: nat)
    requires hop <= MAX_REDIRECTS + 1
    ensures
      var sending := Follow(request, mode, rules, answers, hop);
      && hop + |sending.fetches| <= MAX_REDIRECTS + 1
      && (sending.outcome == TooManyRedirects ==> hop + |sending.fetches| == MAX_REDIRECTS + 1)
      && (sending.outcome.Response? ==> hop + |sending.fetches| == sending.outcome.fetch + 1)
      && (sending.outcome.Refused? ==> hop + |sending.fetches| <= MAX_REDIRECTS)
      && (mode != FollowRedirects ==> |sending.fetches| <= 1)
    decreases MAX_REDIRECTS + 1 - hop
  {
    hide Checked, Redirected, IsRedirect;
    if hop <= MAX_REDIRECTS && Checked(request, rules).Go? {
      var after := After(request, mode, answers(hop), hop);
      if after.Success? { FetchesAreFew(after.value, mode, rules, answers, hop + 1); }
    }
  }

  // ---------------------------------------------------------------- what is fetched

  /** What any fetch must satisfy, whichever hop it is. */
  predicate Allowed<Body>(request: Request<Body>, rules: Rules) {
    && IsWeb(request.url)
    && (request.url.port == "" || request.url.port == "80" || request.url.port == "443")
    && CanonicalHost(request.url.hostname).Some?
    && var host := CanonicalHost(request.url.hostname).value;
    && !BlockedAddress(host)
    && (if host == rules.apiHost then
          && rules.project.Some?
          && OwnPath(request.url.path, rules.project.value)
          && forall h :: h in request.headers ==> !NamesCaller(h.name)
        else !IsPlatformHost(host, rules.platform))
    && forall h :: h in request.headers ==> h.name != "host"
  }

  lemma CheckedIsAllowed<Body>(request: Request<Body>, rules: Rules)
    requires Checked(request, rules).Go?
    ensures
      var sent := Checked(request, rules).request;
      && Allowed(sent, rules)
      && sent.verb == request.verb && sent.url == request.url && sent.body == request.body
      && Checked(sent, rules) == Go(sent)
  {
    var sent := Checked(request, rules).request;
    var lost := Lost(false, false, ToApi(request.url, rules));
    hide BlockedAddress, IsPlatformHost, OwnPath, CanonicalHost, NamesCaller;
    FilterAll(sent.headers, Keeping(lost));
  }

  /** The step a following send takes: what its first fetch was, and what it asks for next. */
  lemma FirstHop<Body>(request: Request<Body>, mode: Mode, rules: Rules, answers: nat -> Answer, hop: nat)
    requires hop <= MAX_REDIRECTS + 1
    ensures
      var fetches := Follow(request, mode, rules, answers, hop).fetches;
      && (fetches != [] ==> Checked(request, rules) == Go(fetches[0]))
      && (|fetches| > 1 ==>
        && hop <= MAX_REDIRECTS
        && mode == FollowRedirects
        && answers(hop).Answer? && IsRedirect(answers(hop).status) && answers(hop).location.Some?
        && var next := Redirected(request, answers(hop).status, answers(hop).location.value);
        && next.Some?
        && fetches[1..] == Follow(next.value, mode, rules, answers, hop + 1).fetches)
  {
    hide Checked, Redirected, IsRedirect;
  }

  /** Every fetch is of a request that passes the filter, and passes it unchanged if asked again. */
  lemma {:induction false} FetchesAreAllowed<Body>(
    request: Request<Body>, mode: Mode, rules: Rules, answers: nat -> Answer, hop: nat, i: nat)
    requires hop <= MAX_REDIRECTS + 1 && i < |Follow(request, mode, rules, answers, hop).fetches|
    ensures
      var fetch := Follow(request, mode, rules, answers, hop).fetches[i];
      Allowed(fetch, rules) && Checked(fetch, rules) == Go(fetch)
    decreases i
  {
    hide Checked, Redirected, IsRedirect, Allowed, Follow;
    FirstHop(request, mode, rules, answers, hop);
    var fetches := Follow(request, mode, rules, answers, hop).fetches;
    if i == 0 {
      CheckedIsAllowed(request, rules);
    } else {
      var next := Redirected(request, answers(hop).status, answers(hop).location.value).value;
      FetchesAreAllowed(next, mode, rules, answers, hop + 1, i - 1);
      assert fetches[i] == fetches[1..][i - 1];
    }
  }

  // ---------------------------------------------------------------- from one fetch to the next

  /** How section 15.4 of RFC 9110 lets a redirect change the method. */
  predicate MethodMayBecome(status: int, before: string, after: string) {
    if status == 303 then after == "GET" || after == "HEAD"
    else after == before || ((status == 301 || status == 302) && before == "POST" && after == "GET")
  }

  /** A later fetch goes where the answer before it pointed, by a method the status allows, and has no body. */
  lemma {:induction false} HopsFollowAnswers<Body>(
    request: Request<Body>, mode: Mode, rules: Rules, answers: nat -> Answer, hop: nat, i: nat)
    requires hop <= MAX_REDIRECTS + 1 && i + 1 < |Follow(request, mode, rules, answers, hop).fetches|
    ensures
      var fetches := Follow(request, mode, rules, answers, hop).fetches;
      var answer := answers(hop + i);
      && mode == FollowRedirects
      && answer.Answer? && IsRedirect(answer.status) && answer.location == Some(fetches[i + 1].url)
      && MethodMayBecome(answer.status, fetches[i].verb, fetches[i + 1].verb)
      && fetches[i + 1].body.None?
      && (fetches[i].body.Some? ==> BecomesGet(answer.status, fetches[i].verb))
    decreases i
  {
    hide Checked, IsRedirect, Allowed, Follow;
    FirstHop(request, mode, rules, answers, hop);
    var fetches := Follow(request, mode, rules, answers, hop).fetches;
    CheckedIsAllowed(request, rules);
    var next := Redirected(request, answers(hop).status, answers(hop).location.value).value;
    if i == 0 {
      FirstHop(next, mode, rules, answers, hop + 1);
      CheckedIsAllowed(next, rules);
      assert fetches[1] == fetches[1..][0];
    } else {
      HopsFollowAnswers(next, mode, rules, answers, hop + 1, i - 1);
      assert fetches[i] == fetches[1..][i - 1] && fetches[i + 1] == fetches[1..][i];
    }
  }

  /** A body is sent at most once, by the first fetch. */
  lemma BodyIsSentOnce<Body>(request: Request<Body>, mode: Mode, rules: Rules, answers: nat -> Answer, j: nat)
    requires 0 < j < |Follow(request, mode, rules, answers, 0).fetches|
    ensures Follow(request, mode, rules, answers, 0).fetches[j].body.None?
    ensures Follow(request, mode, rules, answers, 0).fetches[0].body == request.body
  {
    hide Follow, Checked, IsRedirect, Allowed;
    HopsFollowAnswers(request, mode, rules, answers, 0, j - 1);
    FirstHop(request, mode, rules, answers, 0);
    CheckedIsAllowed(request, rules);
  }

  // ---------------------------------------------------------------- headers over a whole send

  /** Some step before fetch i left the origin. */
  predicate Crossed<Body>(fetches: seq<Request<Body>>, i: nat)
    requires i < |fetches|
  {
    i > 0 && (OriginOf(fetches[0].url) != OriginOf(fetches[1].url) || Crossed(fetches[1..], i - 1))
  }

  /** Some redirect before fetch i turned the request into a GET. */
  predicate Converted<Body>(fetches: seq<Request<Body>>, answers: nat -> Answer, hop: nat, i: nat)
    requires i < |fetches|
    decreases i
  {
    i > 0 && ((answers(hop).Answer? && BecomesGet(answers(hop).status, fetches[0].verb)) || Converted(fetches[1..], answers, hop + 1, i - 1))
  }

  lemma Combined(first: Lost, second: Lost, headers: seq<Header>)
    ensures Remaining(Remaining(headers, first), second)
      == Remaining(headers, Lost(first.credentials || second.credentials, first.content || second.content, first.caller || second.caller))
  {
    hide NamesCaller;
    FilterTwice(headers, Keeping(first), Keeping(second),
                Keeping(Lost(first.credentials || second.credentials, first.content || second.content, first.caller || second.caller)));
  }

  /** Exactly which headers fetch i carries: those of the original, in order, but for Host, for credentials once the
      origin was left, for the content's once it became a GET, and for the caller's when it goes to the API. */
  lemma {:induction false} HeadersSent<Body>(
    request: Request<Body>, mode: Mode, rules: Rules, answers: nat -> Answer, hop: nat, i: nat)
    requires hop <= MAX_REDIRECTS + 1 && i < |Follow(request, mode, rules, answers, hop).fetches|
    ensures
      var fetches := Follow(request, mode, rules, answers, hop).fetches;
      fetches[i].headers
        == Remaining(request.headers, Lost(Crossed(fetches, i), Converted(fetches, answers, hop, i), ToApi(fetches[i].url, rules)))
    decreases i
  {
    hide IsRedirect, Follow, Remaining, BecomesGet, OriginOf, Verdict, ToApi;
    FirstHop(request, mode, rules, answers, hop);
    var fetches := Follow(request, mode, rules, answers, hop).fetches;
    if i > 0 {
      var status := answers(hop).status;
      var target := answers(hop).location.value;
      var next := Redirected(request, status, target).value;
      FirstHop(next, mode, rules, answers, hop + 1);
      HeadersSent(next, mode, rules, answers, hop + 1, i - 1);
      var rest := fetches[1..];
      assert fetches[i] == rest[i - 1] && fetches[1] == rest[0];
      Combined(Lost(OriginOf(target) != OriginOf(request.url), BecomesGet(status, request.verb), false),
               Lost(Crossed(rest, i - 1), Converted(rest, answers, hop + 1, i - 1), ToApi(rest[i - 1].url, rules)),
               request.headers);
    }
  }

  lemma {:induction false} CrossedOnceCrossedForGood<Body>(fetches: seq<Request<Body>>, k: nat, i: nat)
    requires k < i < |fetches| && OriginOf(fetches[k].url) != OriginOf(fetches[k + 1].url)
    ensures Crossed(fetches, i)
    decreases i
  {
    hide OriginOf;
    if k > 0 {
      assert fetches[1..][k - 1] == fetches[k] && fetches[1..][k] == fetches[k + 1];
      CrossedOnceCrossedForGood(fetches[1..], k - 1, i - 1);
    }
  }

  /** Once any hop has left an origin, no later fetch carries a credential, even one that comes back. */
  lemma CredentialsStayHome<Body>(original: Request<Body>, mode: Mode, rules: Rules, answers: nat -> Answer, k: nat, i: nat, h: Header)
    requires k < i < |Follow(original, mode, rules, answers, 0).fetches|
    requires
      var fetches := Follow(original, mode, rules, answers, 0).fetches;
      OriginOf(fetches[k].url) != OriginOf(fetches[k + 1].url) && h in fetches[i].headers
    ensures h.name !in CREDENTIAL_HEADERS
  {
    hide OriginOf, Follow, CREDENTIAL_HEADERS, NamesCaller;
    HeadersSent(original, mode, rules, answers, 0, i);
    CrossedOnceCrossedForGood(Follow(original, mode, rules, answers, 0).fetches, k, i);
  }
}
