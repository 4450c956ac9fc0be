/** The filter every request of a site's server code passes, hop by hop through redirects. */
module Outbound {
  import opened Wrappers
  import opened Text
  import opened HeaderLists
  import opened Hosts
  import opened ProjectPaths

  const MAX_REDIRECTS: nat := 5
  const INTERNAL_HEADER_PREFIX := "x-excalibase-"
  const PUBLISHABLE_KEY_HEADER := "x-excalibase-publishable-key"
  const FORWARDING_HEADERS: seq<string> := [
    "x-forwarded-for", "x-forwarded-host", "x-forwarded-proto", "forwarded", "x-real-ip", "true-client-ip", "cf-connecting-ip"]
  const CREDENTIAL_HEADERS: seq<string> := [
    "authorization", "cookie", "proxy-authorization", "apikey", "x-api-key", "x-excalibase-publishable-key"]

  // ---------------------------------------------------------------- requests and answers

  /** A parsed URL. The embedded origin is that of a URL whose scheme is not of the web. */
  datatype Url = Url(protocol: string, hostname: string, port: string, path: string, embedded: Origin)

  datatype Origin = Tuple(protocol: string, hostname: string, port: string) | Opaque

  datatype Request<Body> = Request(verb: string, url: Url, headers: seq<Header>, body: Option<Body>)

  /** What fetch answers: nothing, or a response with where its Location parses to. */
  datatype Answer = NetworkError | Answer(status: int, location: Option<Url>)

  datatype Mode = FollowRedirects | Manual | RedirectIsError

  datatype Reason = Scheme | Port | Address | Api | Platform

  datatype Check<Body> = Go(request: Request<Body>) | Refuse(reason: Reason)

  /** How a send ends: a refusal, the answer of one of its fetches, too many redirects, or a thrown error. */
  datatype Outcome = Refused(reason: Reason) | Response(fetch: nat) | TooManyRedirects | Thrown

  datatype Rules = Rules(apiHost: string, platform: seq<string>, project: Option<string>)

  predicate IsWeb(url: Url) {
    url.protocol == "https:" || url.protocol == "http:"
  }

  function OriginOf(url: Url): Origin {
    if IsWeb(url) then Tuple(url.protocol, url.hostname, url.port) else url.embedded
  }

  predicate IsRedirect(status: int) {
    status == 301 || status == 302 || status == 303 || status == 307 || status == 308
  }

  /** A header that speaks for the platform or names the caller. */
  predicate NamesCaller(name: string) {
    (StartsWith(name, INTERNAL_HEADER_PREFIX) && name != PUBLISHABLE_KEY_HEADER) || name in FORWARDING_HEADERS
  }

  function NotCaller(): string -> bool {
    name => !NamesCaller(name)
  }

  // ---------------------------------------------------------------- one hop

  predicate ToApi(url: Url, rules: Rules) {
    CanonicalHost(url.hostname) == Some(rules.apiHost)
  }

  /** Which headers a request has lost. */
  datatype Lost = Lost(credentials: bool, content: bool, caller: bool)

  predicate Keeps(lost: Lost, name: string) {
    && name != "host"
    && !(lost.credentials && name in CREDENTIAL_HEADERS)
    && !(lost.content && (name == "content-type" || name == "content-length"))
    && !(lost.caller && NamesCaller(name))
  }

  function Keeping(lost: Lost): string -> bool {
    name => Keeps(lost, name)
  }

  function Remaining(headers: seq<Header>, lost: Lost): seq<Header> {
    Filter(headers, Keeping(lost))
  }

  /** Why a URL may not be fetched, if it may not. */
  function Verdict(url: Url, rules: Rules): Option<Reason> {
    if !IsWeb(url) then Some(Scheme)
    else if url.port != "" && url.port != "80" && url.port != "443" then Some(Port)
    else
      match CanonicalHost(url.hostname)
      case None => Some(Address)
      case Some(host) =>
        if BlockedAddress(host) then Some(Address)
        else if host == rules.apiHost then
          if rules.project.None? || !OwnPath(url.path, rules.project.value) then Some(Api) else None
        else if IsPlatformHost(host, rules.platform) then Some(Platform)
        else None
  }

  /** checkedRequest: the request to send, or the refusal. */
  function Checked<Body>(request: Request<Body>, rules: Rules): Check<Body> {
    match Verdict(request.url, rules)
    case Some(reason) => Refuse(reason)
    case None => Go(request.(headers := Remaining(request.headers, Lost(false, false, ToApi(request.url, rules)))))
  }

  predicate BecomesGet(status: int, verb: string) {
    status == 303 || ((status == 301 || status == 302) && verb == "POST")
  }

  function NextVerb(status: int, verb: string): string {
    if BecomesGet(status, verb) then (if verb == "HEAD" then "HEAD" else "GET") else verb
  }

  /** redirected: the request a redirect asks for, or none when a body would have to be sent again. */
  function Redirected<Body>(request: Request<Body>, status: int, target: Url): Option<Request<Body>> {
    var toGet := BecomesGet(status, request.verb);
    if !toGet && request.body.Some? then None
    else Some(Request(NextVerb(status, request.verb), target,
                      Remaining(request.headers, Lost(OriginOf(target) != OriginOf(request.url), toGet, false)), None))
  }

  /** apiHeaders: walks the list, copying what may pass. */
  method ApiHeaders(source: seq<Header>) returns (headers: Headers)
    ensures fresh(headers) && headers.list == Filter(source, NotCaller())
  {
    hide NamesCaller;
    headers := new Headers([]);
    var i := 0;
    while i < |source|
      invariant 0 <= i <= |source|
      invariant fresh(headers) && headers.list == Filter(source[..i], NotCaller())
    {
      FilterAppend(source[..i], [source[i]], NotCaller());
      assert source[..i + 1] == source[..i] + [source[i]];
      if !NamesCaller(source[i].name) {
        headers.Append(source[i].name, source[i].value);
        assert [Header(source[i].name, source[i].value)] == [source[i]];
      }
      i := i + 1;
    }
    assert source[..i] == source;
  }

  method CheckRequest<Body>(request: Request<Body>, rules: Rules) returns (check: Check<Body>)
    ensures check == Checked(request, rules)
  {
    hide BlockedAddress, IsPlatformHost, OwnPath, CanonicalHost, NamesCaller;
    match Verdict(request.url, rules) {
      case Some(reason) => return Refuse(reason);
      case None =>
    }
    var headers;
    var toApi := ToApi(request.url, rules);
    if toApi {
      headers := ApiHeaders(request.headers);
    } else {
      headers := new Headers(request.headers);
    }
    headers.Delete("host");
    if toApi {
      FilterTwice(request.headers, NotCaller(), NoneOf({"host"}), Keeping(Lost(false, false, true)));
    } else {
      FilterAgrees(request.headers, NoneOf({"host"}), Keeping(Lost(false, false, false)));
    }
    return Go(Request(request.verb, request.url, headers.list, request.body));
  }

  lemma DroppedNames(source: seq<Header>, dropped: set<string>, lost: Lost)
    requires !lost.caller
    requires dropped == {"host"} + (if lost.credentials then set name | name in CREDENTIAL_HEADERS else {})
                     + if lost.content then {"content-type", "content-length"} else {}
    ensures Filter(source, NoneOf(dropped)) == Remaining(source, lost)
  {
    hide CREDENTIAL_HEADERS;
    FilterAgrees(source, NoneOf(dropped), Keeping(lost));
  }

  /** redirected: copies the headers and deletes from the copy. */
  method Redirect<Body>(request: Request<Body>, status: int, target: Url) returns (next: Option<Request<Body>>)
    ensures next == Redirected(request, status, target)
  {
    hide CREDENTIAL_HEADERS, OriginOf, Keeps, Filter, NextVerb;
    var headers := new Headers(request.headers);
    ghost var dropped := {"host"};
    headers.Delete("host");
    var crosses := OriginOf(target) != OriginOf(request.url);
    if crosses {
      var i := 0;
      while i < |CREDENTIAL_HEADERS|
        invariant 0 <= i <= |CREDENTIAL_HEADERS|
        invariant dropped == {"host"} + set name | name in CREDENTIAL_HEADERS[..i]
        invariant headers.list == Filter(request.headers, NoneOf(dropped))
      {
        WithoutAlso(request.headers, dropped, CREDENTIAL_HEADERS[i]);
        headers.Delete(CREDENTIAL_HEADERS[i]);
        dropped := dropped + {CREDENTIAL_HEADERS[i]};
        i := i + 1;
      }
      assert CREDENTIAL_HEADERS[..i] == CREDENTIAL_HEADERS;
    }
    var toGet := BecomesGet(status, request.verb);
    if toGet {
      WithoutAlso(request.headers, dropped, "content-type");
      WithoutAlso(request.headers, dropped + {"content-type"}, "content-length");
      headers.Delete("content-type");
      headers.Delete("content-length");
      dropped := dropped + {"content-type"} + {"content-length"};
    } else if request.body.Some? {
      return None;
    }
    DroppedNames(request.headers, dropped, Lost(crosses, toGet, false));
    return Some(Request(NextVerb(status, request.verb), target, headers.list, None));
  }
}
