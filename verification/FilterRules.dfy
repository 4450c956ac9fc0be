/** Which requests the filter lets through and with which headers, and which redirects it follows, told in full. */
module FilterRules {
  import opened Wrappers
  import opened Text
  import opened Ipv6
  import opened Addresses
  import opened HeaderLists
  import opened Hosts
  import opened HostRules
  import opened ProjectPaths
  import opened Outbound
  import opened Redirects

  // ---------------------------------------------------------------- which URLs

  predicate OverTheWeb(url: Url) {
    && (url.protocol == "https:" || url.protocol == "http:")
    && (url.port == "" || url.port == "80" || url.port == "443")
  }

  /** A host of the public internet: no local name and no literal outside it. */
  ghost predicate Public(host: string) {
    !LocalName(host) && !PrivateLiteral(host) && !PrivateQuad(host)
  }

  /** The API host is reached on the project's own paths only, and the platform's other hosts not at all. */
  ghost predicate MayReach(host: string, url: Url, rules: Rules) {
    && Public(host)
    && if host == rules.apiHost then rules.project.Some? && OwnPath(url.path, rules.project.value)
       else !IsPlatformHost(host, rules.platform)
  }

  /** What the checks come to, in the order of their refusals. */
  lemma VerdictIs(url: Url, rules: Rules, host: string)
    ensures !OverTheWeb(url) ==> Verdict(url, rules) == Some(Scheme) || Verdict(url, rules) == Some(Port)
    ensures Verdict(url, rules) == Some(Scheme) <==> url.protocol != "https:" && url.protocol != "http:"
    ensures OverTheWeb(url) && (forall h :: !Canonical(url.hostname, h)) ==> Verdict(url, rules) == Some(Address)
    ensures OverTheWeb(url) && Canonical(url.hostname, host) ==>
      Verdict(url, rules) ==
        if !Public(host) then Some(Address)
        else if MayReach(host, url, rules) then None
        else if host == rules.apiHost then Some(Api)
        else Some(Platform)
  {
    hide BlockedAddress, LocalName, PrivateLiteral, PrivateQuad, IsPlatformHost, OwnPath, CanonicalHost, Canonical;
    CanonicalHostIff(url.hostname, host);
    BlockedIff(host);
    if CanonicalHost(url.hostname).Some? { CanonicalHostIff(url.hostname, CanonicalHost(url.hostname).value); }
  }

  /** A request is let through exactly when it goes over the web, its URL names a host and that host may be reached. */
  lemma LetThroughIff<Body>(request: Request<Body>, rules: Rules)
    ensures Checked(request, rules).Go? <==>
      OverTheWeb(request.url) && exists host :: Canonical(request.url.hostname, host) && MayReach(host, request.url, rules)
  {
    hide Canonical, Public, Verdict, OverTheWeb, OwnPath, IsPlatformHost;
    if host :| Canonical(request.url.hostname, host) {
      VerdictIs(request.url, rules, host);
      OneHostOnly(request.url.hostname, host);
    } else {
      VerdictIs(request.url, rules, "");
    }
  }

  lemma OneHostOnly(hostname: string, host: string)
    requires Canonical(hostname, host)
    ensures forall other :: Canonical(hostname, other) ==> other == host
  {
    hide CanonicalHost, Canonical;
    CanonicalHostIff(hostname, host);
    forall other | Canonical(hostname, other) ensures other == host { CanonicalHostIff(hostname, other); }
  }

  /** A URL whose host is an IPv6 literal, with a dot behind it or without, is refused for its address exactly when that is
      not global unicast. */
  lemma LiteralIsRefusedIff<Body>(request: Request<Body>, rules: Rules, spelling: Spelling, dotted: bool)
    requires OverTheWeb(request.url) && WellSpelled(spelling) && request.url.hostname == Written([Literal(spelling)], dotted)
    ensures Checked(request, rules) == Refuse(Address) <==> !GlobalUnicast(Number(Meaning(spelling)))
  {
    hide Meaning, Number, GlobalUnicast, BlockedAddress, CanonicalHost, Print, Literal, IsPlatformHost, OwnPath;
    WrittenLiteralIff(spelling, dotted);
  }

  /** One whose host is a dotted quad, exactly when its address is not global or multicast. */
  lemma QuadIsRefusedIff<Body>(request: Request<Body>, rules: Rules, tokens: seq<string>, dotted: bool)
    requires OverTheWeb(request.url) && request.url.hostname == Written(tokens, dotted)
    requires |tokens| == 4 && AllOctets(tokens) && forall i :: 0 <= i < 4 ==> OctetValues(tokens)[i] <= 255
    ensures
      var o := OctetValues(tokens);
      Checked(request, rules) == Refuse(Address) <==> NotGlobal(Quad(o[0], o[1], o[2], o[3])) || Multicast(Quad(o[0], o[1], o[2], o[3]))
  {
    hide BlockedAddress, CanonicalHost, NotGlobal, Multicast, Quad, IsPlatformHost, OwnPath, AllOctets, Join;
    WrittenQuadIff(tokens, dotted);
  }

  /** One whose host is any other name, exactly when it is localhost or below, or below local or internal, in any case. */
  lemma NameIsRefusedIff<Body>(request: Request<Body>, rules: Rules, labels: seq<string>, dotted: bool)
    requires OverTheWeb(request.url) && request.url.hostname == Written(labels, dotted)
    requires AreLabels(labels) && labels[0][0] != '[' && !Numeric(labels[|labels| - 1])
    ensures
      var last := Lower(labels[|labels| - 1]);
      Checked(request, rules) == Refuse(Address) <==> last == "localhost" || (|labels| > 1 && (last == "local" || last == "internal"))
  {
    hide BlockedAddress, CanonicalHost, IsPlatformHost, OwnPath, Join, AreLabels, Numeric;
    WrittenNameIff(labels, dotted);
  }

  // ---------------------------------------------------------------- the API host

  /** A header that speaks for the platform or names the caller. */
  predicate SpeaksForCaller(name: string) {
    || (|name| >= 13 && name[..13] == "x-excalibase-" && name != "x-excalibase-publishable-key")
    || name == "x-forwarded-for" || name == "x-forwarded-host" || name == "x-forwarded-proto" || name == "forwarded"
    || name == "x-real-ip" || name == "true-client-ip" || name == "cf-connecting-ip"
  }

  lemma NamesCallerIff(name: string)
    ensures NamesCaller(name) <==> SpeaksForCaller(name)
  {
    assert |INTERNAL_HEADER_PREFIX| == 13;
  }

  /** However the API host is written, a request to it is let through exactly on a path of the project's own, and then
      carries no header that speaks for a caller. */
  lemma ApiHostIsHeld<Body>(request: Request<Body>, rules: Rules, labels: seq<string>, dotted: bool)
    requires AreLabels(labels) && request.url.hostname == Written(labels, dotted) && rules.apiHost == Join(LowerAll(labels), ".")
    requires OverTheWeb(request.url) && Public(rules.apiHost)
    ensures Checked(request, rules).Go? <==> rules.project.Some? && OwnPath(request.url.path, rules.project.value)
    ensures Checked(request, rules).Refuse? ==> Checked(request, rules) == Refuse(Api)
    ensures Checked(request, rules).Go? ==>
      forall h :: h in Checked(request, rules).request.headers <==> h in request.headers && h.name != "host" && !SpeaksForCaller(h.name)
  {
    hide BlockedAddress, CanonicalHost, IsPlatformHost, OwnPath, Join, AreLabels, NamesCaller, Public, SpeaksForCaller, OverTheWeb;
    WrittenNames(labels, dotted);
    CanonicalHostIff(request.url.hostname, rules.apiHost);
    VerdictIs(request.url, rules, rules.apiHost);
    forall h: Header ensures NamesCaller(h.name) <==> SpeaksForCaller(h.name) { NamesCallerIff(h.name); }
    hide Verdict, Canonical;
  }

  // ---------------------------------------------------------------- headers, name by name

  /** The statuses of section 15.4 of RFC 9110 that ask for another request. */
  predicate Redirecting(status: int) {
    status in {301, 302, 303, 307, 308}
  }

  /** An answer that turns the next request into one without a body: 303, or 301 and 302 to a POST. */
  predicate DropsBody(status: int, verb: string) {
    status == 303 || (status in {301, 302} && verb == "POST")
  }

  predicate IsCredential(name: string) {
    || name == "authorization" || name == "cookie" || name == "proxy-authorization"
    || name == "apikey" || name == "x-api-key" || name == "x-excalibase-publishable-key"
  }

  lemma CredentialNames(name: string)
    ensures name in CREDENTIAL_HEADERS <==> IsCredential(name)
  {
  }

  /** Some step before fetch i left its origin. */
  predicate LeftOrigin<Body>(fetches: seq<Request<Body>>, i: nat) {
    exists k :: 0 <= k < i < |fetches| && OriginOf(fetches[k].url) != OriginOf(fetches[k + 1].url)
  }

  /** Some answer before fetch i dropped the body. */
  predicate LostBody<Body>(fetches: seq<Request<Body>>, answers: nat -> Answer, hop: nat, i: nat) {
    exists k :: 0 <= k < i < |fetches| && answers(hop + k).Answer? && DropsBody(answers(hop + k).status, fetches[k].verb)
  }

  lemma {:induction false} CrossedIff<Body>(fetches: seq<Request<Body>>, i: nat)
    requires i < |fetches|
    ensures Crossed(fetches, i) <==> LeftOrigin(fetches, i)
    decreases i
  {
    hide OriginOf;
    if i > 0 {
      var rest := fetches[1..];
      CrossedIff(rest, i - 1);
      if LeftOrigin(rest, i - 1) {
        var k :| 0 <= k < i - 1 && OriginOf(rest[k].url) != OriginOf(rest[k + 1].url);
        assert rest[k] == fetches[k + 1] && rest[k + 1] == fetches[k + 1 + 1];
      }
      if LeftOrigin(fetches, i) && OriginOf(fetches[0].url) == OriginOf(fetches[1].url) {
        var k :| 0 <= k < i && OriginOf(fetches[k].url) != OriginOf(fetches[k + 1].url);
        assert rest[k - 1] == fetches[k] && rest[k - 1 + 1] == fetches[k + 1];
      }
      if OriginOf(fetches[0].url) != OriginOf(fetches[1].url) { assert fetches[0 + 1] == fetches[1]; }
    }
  }

  lemma {:induction false} ConvertedIff<Body>(fetches: seq<Request<Body>>, answers: nat -> Answer, hop: nat, i: nat)
    requires i < |fetches|
    ensures Converted(fetches, answers, hop, i) <==> LostBody(fetches, answers, hop, i)
    decreases i
  {
    hide BecomesGet, DropsBody;
    if i > 0 {
      var rest := fetches[1..];
      DropsBodyIff(answers(hop), fetches[0].verb);
      ConvertedIff(rest, answers, hop + 1, i - 1);
      LostBodyLater(fetches, answers, hop, i);
    }
  }

  lemma DropsBodyIff(answer: Answer, verb: string)
    ensures answer.Answer? ==> (BecomesGet(answer.status, verb) <==> DropsBody(answer.status, verb))
  {
  }

  lemma LostBodyLater<Body>(fetches: seq<Request<Body>>, answers: nat -> Answer, hop: nat, i: nat)
    requires 0 < i < |fetches|
    ensures LostBody(fetches, answers, hop, i) <==>
      (answers(hop).Answer? && DropsBody(answers(hop).status, fetches[0].verb)) || LostBody(fetches[1..], answers, hop + 1, i - 1)
  {
    hide DropsBody;
    var rest := fetches[1..];
    if LostBody(rest, answers, hop + 1, i - 1) {
      var k :| 0 <= k < i - 1 && answers(hop + 1 + k).Answer? && DropsBody(answers(hop + 1 + k).status, rest[k].verb);
      assert rest[k] == fetches[k + 1] && hop + 1 + k == hop + (k + 1);
    }
    if LostBody(fetches, answers, hop, i) && !(answers(hop).Answer? && DropsBody(answers(hop).status, fetches[0].verb)) {
      var k :| 0 <= k < i && answers(hop + k).Answer? && DropsBody(answers(hop + k).status, fetches[k].verb);
      assert rest[k - 1] == fetches[k] && hop + 1 + (k - 1) == hop + k;
    }
    if answers(hop).Answer? && DropsBody(answers(hop).status, fetches[0].verb) { assert answers(hop + 0) == answers(hop); }
  }

  /** What a fetch of a send carries under one name: what the original request had, or nothing at all. Nothing is Host's
      lot always, a credential's once some hop left its origin, the content's two once some hop became a GET, and the
      caller's on the way to the API host. */
  lemma HeaderIsSent<Body>(request: Request<Body>, mode: Mode, rules: Rules, answers: nat -> Answer, i: nat, name: string)
    requires i < |Follow(request, mode, rules, answers, 0).fetches|
    ensures
      var fetches := Follow(request, mode, rules, answers, 0).fetches;
      var dropped :=
        || name == "host"
        || (LeftOrigin(fetches, i) && IsCredential(name))
        || (LostBody(fetches, answers, 0, i) && (name == "content-type" || name == "content-length"))
        || (Canonical(fetches[i].url.hostname, rules.apiHost) && SpeaksForCaller(name));
      Values(fetches[i].headers, name) == if dropped then [] else Values(request.headers, name)
  {
    hide Follow, Crossed, Converted, LeftOrigin, LostBody, NamesCaller, CREDENTIAL_HEADERS, IsCredential, SpeaksForCaller, CanonicalHost, Canonical;
    var fetches := Follow(request, mode, rules, answers, 0).fetches;
    var lost := Lost(Crossed(fetches, i), Converted(fetches, answers, 0, i), ToApi(fetches[i].url, rules));
    HeadersSent(request, mode, rules, answers, 0, i);
    CrossedIff(fetches, i);
    ConvertedIff(fetches, answers, 0, i);
    ValuesOfFilter(request.headers, Keeping(lost), name);
    NamesCallerIff(name);
    CredentialNames(name);
    CanonicalHostIff(fetches[i].url.hostname, rules.apiHost);
  }

  // ---------------------------------------------------------------- redirects

  /** An answer that a fetch is to be followed after: in "follow" mode, with a status that asks for another request and a
      place to send it, and with the fetch's body gone or dropped. */
  predicate IsFollowed<Body>(fetch: Request<Body>, mode: Mode, answer: Answer) {
    && mode == FollowRedirects && answer.Answer? && Redirecting(answer.status) && answer.location.Some?
    && (fetch.body.None? || DropsBody(answer.status, fetch.verb))
  }

  /** After one fetch: the next request goes where the answer points, without a body, as a GET - or still a HEAD - if the
      status drops bodies and else by the same method; or the send throws, on a network error and on a redirect in
      "error" mode; or it passes the answer on. */
  lemma AfterOneFetch<Body>(request: Request<Body>, mode: Mode, answer: Answer, hop: nat)
    ensures
      var after := Redirects.After(request, mode, answer, hop);
      && (after.Success? <==> IsFollowed(request, mode, answer))
      && (after.Success? ==>
            && answer.location == Some(after.value.url) && after.value.body.None?
            && after.value.verb == if DropsBody(answer.status, request.verb) && request.verb != "HEAD" then "GET" else request.verb)
      && (after.Failure? ==>
            after.error == if answer.NetworkError? || (mode == RedirectIsError && Redirecting(answer.status)) then Thrown else Response(hop))
  {
  }

  lemma SameVerdict<Body>(request: Request<Body>, rules: Rules)
    requires Checked(request, rules).Go?
    ensures Checked(request, rules).request.verb == request.verb && Checked(request, rules).request.body == request.body
    ensures Checked(request, rules).request.url == request.url
  {
    hide Verdict, Remaining;
  }

  /** How a send ends, from its last fetch on: with no fetch, the refusal of its first request; else with the error or the
      answer, unless that is followed; then with too many redirects after the sixth fetch, and before it with the
      refusal of the URL the answer points to. */
  ghost predicate EndsRight<Body>(sending: Sending<Body>, first: Url, mode: Mode, rules: Rules, answers: nat -> Answer, hop: nat) {
    if sending.fetches == [] then
      Verdict(first, rules).Some? && sending.outcome == Refused(Verdict(first, rules).value)
    else
      var i := |sending.fetches| - 1;
      var (fetch, answer) := (sending.fetches[i], answers(hop + i));
      && hop + i <= 5
      && if !IsFollowed(fetch, mode, answer) then
           sending.outcome == if answer.NetworkError? || (mode == RedirectIsError && Redirecting(answer.status)) then Thrown
                              else Response(hop + i)
         else if hop + i == 5 then sending.outcome == TooManyRedirects
         else Verdict(answer.location.value, rules).Some? && sending.outcome == Refused(Verdict(answer.location.value, rules).value)
  }

  lemma {:induction false} HowASendEnds<Body>(
    request: Request<Body>, mode: Mode, rules: Rules, answers: nat -> Answer, hop: nat)
    requires hop <= 5
    ensures EndsRight(Follow(request, mode, rules, answers, hop), request.url, mode, rules, answers, hop)
    decreases 5 - hop
  {
    hide Verdict, Redirected, Remaining, IsRedirect, Redirecting, IsFollowed, EndsRight, Redirects.After;
    if Checked(request, rules).Refuse? {
      hide Follow;
      RefusedAtOnce(request, mode, rules, answers, hop);
    } else {
      SameVerdict(request, rules);
      AfterOneFetch(request, mode, answers(hop), hop);
      hide Checked, Follow;
      var after := Redirects.After(request, mode, answers(hop), hop);
      if after.Success? {
        if hop < 5 {
          HowASendEnds(after.value, mode, rules, answers, hop + 1);
          FollowedOnce(request, mode, rules, answers, hop, after.value);
        } else {
          FollowedInVain(request, mode, rules, answers, after.value);
        }
      } else {
        StopsAtOnce(request, mode, rules, answers, hop);
      }
    }
  }

  lemma RefusedAtOnce<Body>(request: Request<Body>, mode: Mode, rules: Rules, answers: nat -> Answer, hop: nat)
    requires hop <= 5 && Checked(request, rules).Refuse?
    ensures EndsRight(Follow(request, mode, rules, answers, hop), request.url, mode, rules, answers, hop)
  {
    hide Verdict, Redirects.After, IsFollowed, Redirecting;
  }

  lemma StopsAtOnce<Body>(request: Request<Body>, mode: Mode, rules: Rules, answers: nat -> Answer, hop: nat)
    requires hop <= 5 && Checked(request, rules).Go? && Redirects.After(request, mode, answers(hop), hop).Failure?
    ensures EndsRight(Follow(request, mode, rules, answers, hop), request.url, mode, rules, answers, hop)
  {
    hide Verdict, Redirects.After, Redirecting, Checked, DropsBody;
    SameVerdict(request, rules);
    AfterOneFetch(request, mode, answers(hop), hop);
  }

  lemma FollowedInVain<Body>(request: Request<Body>, mode: Mode, rules: Rules, answers: nat -> Answer, next: Request<Body>)
    requires Checked(request, rules).Go? && Redirects.After(request, mode, answers(5), 5) == Success(next)
    ensures EndsRight(Follow(request, mode, rules, answers, 5), request.url, mode, rules, answers, 5)
  {
    hide Verdict, Redirects.After, Redirecting, Checked, DropsBody;
    SameVerdict(request, rules);
    AfterOneFetch(request, mode, answers(5), 5);
    RestOfSend(request, mode, rules, answers, 5, next);
  }

  lemma FollowedOnce<Body>(request: Request<Body>, mode: Mode, rules: Rules, answers: nat -> Answer, hop: nat, next: Request<Body>)
    requires hop < 5 && Checked(request, rules).Go? && Redirects.After(request, mode, answers(hop), hop) == Success(next)
    requires EndsRight(Follow(next, mode, rules, answers, hop + 1), next.url, mode, rules, answers, hop + 1)
    ensures EndsRight(Follow(request, mode, rules, answers, hop), request.url, mode, rules, answers, hop)
  {
    hide Verdict, Redirects.After, Redirecting, Checked, DropsBody, Follow;
    SameVerdict(request, rules);
    AfterOneFetch(request, mode, answers(hop), hop);
    RestOfSend(request, mode, rules, answers, hop, next);
    var rest := Follow(next, mode, rules, answers, hop + 1);
    assert hop + |[Checked(request, rules).request] + rest.fetches| - 1 == hop + 1 + |rest.fetches| - 1;
  }

  lemma RestOfSend<Body>(request: Request<Body>, mode: Mode, rules: Rules, answers: nat -> Answer, hop: nat, next: Request<Body>)
    requires hop <= MAX_REDIRECTS && Checked(request, rules).Go? && Redirects.After(request, mode, answers(hop), hop) == Success(next)
    ensures
      var (all, rest) := (Follow(request, mode, rules, answers, hop), Follow(next, mode, rules, answers, hop + 1));
      all.fetches == [Checked(request, rules).request] + rest.fetches && all.outcome == rest.outcome
  {
    hide Checked, Redirects.After;
  }

  /** Two URLs of the web have one origin exactly when scheme, host and port agree; no other URL shares an origin with one
      of the web, but by embedding it. */
  lemma SameOriginIff(url: Url, other: Url)
    requires OverTheWeb(url)
    ensures OriginOf(url) == OriginOf(other) <==>
      if other.protocol == "https:" || other.protocol == "http:"
      then url.protocol == other.protocol && url.hostname == other.hostname && url.port == other.port
      else other.embedded == Tuple(url.protocol, url.hostname, url.port)
  {
  }
}
