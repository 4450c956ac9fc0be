/** The headers a site's answer may carry. */
module SiteHeaders {
  import opened Text
  import opened HeaderLists
  import opened Cookies

  // ---------------------------------------------------------------- headers

  const INTERNAL_HEADER_PREFIX := "x-excalibase-"
  const CLOUDFLARE_HEADER_PREFIX := "cf-"

  predicate IsReserved(name: string) {
    StartsWith(name, INTERNAL_HEADER_PREFIX) || StartsWith(name, CLOUDFLARE_HEADER_PREFIX)
  }

  /** The names a site's code may not set: the platform's own and the CDN's. */
  lemma ReservedIff(name: string)
    ensures IsReserved(name) <==> (|name| >= 13 && name[..13] == "x-excalibase-") || (|name| >= 3 && name[..3] == "cf-")
  {
    assert |INTERNAL_HEADER_PREFIX| == 13 && |CLOUDFLARE_HEADER_PREFIX| == 3;
  }

  function NotReserved(): string -> bool {
    name => !IsReserved(name)
  }

  function Staying(cookies: seq<string>, hostname: string): (staying: seq<string>)
    ensures |staying| <= |cookies|
  {
    if cookies == [] then []
    else (if StaysOnHost(cookies[0], hostname) then [cookies[0]] else []) + Staying(cookies[1..], hostname)
  }

  function CookieHeaders(cookies: seq<string>): seq<Header> {
    if cookies == [] then [] else [Header("set-cookie", cookies[0])] + CookieHeaders(cookies[1..])
  }

  lemma StayingHead(cookies: seq<string>, hostname: string)
    requires cookies != []
    ensures Staying(cookies, hostname)
      == (if StaysOnHost(cookies[0], hostname) then [cookies[0]] else []) + Staying(cookies[1..], hostname)
  {
    hide StaysOnHost;
  }

  lemma NoneStaying(hostname: string)
    ensures Staying([], hostname) == []
  {
  }

  lemma {:induction false} StayingAppend(one: seq<string>, more: seq<string>, hostname: string)
    ensures Staying(one + more, hostname) == Staying(one, hostname) + Staying(more, hostname)
    decreases |one|
  {
    hide Staying, StaysOnHost;
    if one == [] {
      assert one + more == more;
      NoneStaying(hostname);
    } else {
      StayingAppend(one[1..], more, hostname);
      assert (one + more)[0] == one[0] && (one + more)[1..] == one[1..] + more;
      StayingHead(one + more, hostname);
      StayingHead(one, hostname);
      var first := if StaysOnHost(one[0], hostname) then [one[0]] else [];
      var rest := Staying(one[1..], hostname);
      assert first + (rest + Staying(more, hostname)) == first + rest + Staying(more, hostname);
    }
  }

  lemma CookieHeadersHead(cookies: seq<string>)
    requires cookies != []
    ensures CookieHeaders(cookies) == [Header("set-cookie", cookies[0])] + CookieHeaders(cookies[1..])
  {
  }

  lemma NoCookieHeaders()
    ensures CookieHeaders([]) == []
  {
  }

  lemma {:induction false} CookieHeadersAppend(one: seq<string>, more: seq<string>)
    ensures CookieHeaders(one + more) == CookieHeaders(one) + CookieHeaders(more)
    decreases |one|
  {
    hide CookieHeaders;
    if one == [] {
      assert one + more == more;
      NoCookieHeaders();
    } else {
      CookieHeadersAppend(one[1..], more);
      assert (one + more)[0] == one[0] && (one + more)[1..] == one[1..] + more;
      CookieHeadersHead(one);
      CookieHeadersHead(one + more);
    }
  }

  function Unreserved(source: seq<Header>, ranCode: bool): seq<Header> {
    if ranCode then Filter(source, NotReserved()) else source
  }

  function Secured(list: seq<Header>, preview: bool): seq<Header> {
    var sniffless := Put(list, "x-content-type-options", "nosniff");
    if preview then Put(Put(sniffless, "x-robots-tag", "noindex, nofollow"), "referrer-policy", "no-referrer")
    else if !Has(sniffless, "referrer-policy") then Put(sniffless, "referrer-policy", "strict-origin-when-cross-origin")
    else sniffless
  }

  function CookiesFiltered(list: seq<Header>, hostname: string): seq<Header> {
    var cookies := Values(list, "set-cookie");
    if cookies == [] then list else Without(list, "set-cookie") + CookieHeaders(Staying(cookies, hostname))
  }

  function ForSite(source: seq<Header>, hostname: string, ranCode: bool, preview: bool): seq<Header> {
    CookiesFiltered(Secured(Unreserved(source, ranCode), preview), hostname)
  }

  function Names(list: seq<Header>): (names: seq<string>)
    ensures |names| == |list| && forall i :: 0 <= i < |list| ==> names[i] == list[i].name
  {
    seq(|list|, i requires 0 <= i < |list| => list[i].name)
  }

  /** siteHeaders: a copy of the source's headers, changed in place. */
  method SiteHeaders(source: seq<Header>, hostname: string, ranCode: bool, preview: bool) returns (headers: Headers)
    ensures fresh(headers) && headers.list == ForSite(source, hostname, ranCode, preview)
  {
    hide Filter, Put, Values, Without, Has, StaysOnHost;
    headers := new Headers(source);
    if ranCode {
      DeleteReserved(headers);
    }
    headers.Set("x-content-type-options", "nosniff");
    if preview {
      headers.Set("x-robots-tag", "noindex, nofollow");
      headers.Set("referrer-policy", "no-referrer");
    } else if !Has(headers.list, "referrer-policy") {
      headers.Set("referrer-policy", "strict-origin-when-cross-origin");
    }
    var cookies := Values(headers.list, "set-cookie");
    if |cookies| > 0 {
      headers.Delete("set-cookie");
      AppendStaying(headers, cookies, hostname);
    }
  }

  /** Deleting every reserved name there was leaves the headers that are not reserved. */
  lemma ReservedGone(source: seq<Header>, gone: set<string>)
    requires forall name :: name in gone <==> name in Names(source) && IsReserved(name)
    ensures Filter(source, NoneOf(gone)) == Filter(source, NotReserved())
  {
    hide IsReserved, Filter;
    forall h | h in source ensures NoneOf(gone)(h.name) == NotReserved()(h.name) {
      var k :| 0 <= k < |source| && source[k] == h;
      assert Names(source)[k] == h.name;
    }
    FilterAgrees(source, NoneOf(gone), NotReserved());
  }

  method DeleteReserved(headers: Headers)
    modifies headers
    ensures headers.list == Filter(old(headers.list), NotReserved())
  {
    hide IsReserved, Filter, Names;
    ghost var source := headers.list;
    var names := Names(headers.list);
    ghost var gone: set<string> := {};
    FilterAll(source, NoneOf(gone));
    var i := 0;
    while i < |names|
      invariant 0 <= i <= |names|
      invariant forall name :: name in gone <==> name in names[..i] && IsReserved(name)
      invariant headers.list == Filter(source, NoneOf(gone))
    {
      assert names[..i + 1] == names[..i] + [names[i]];
      if IsReserved(names[i]) {
        WithoutAlso(source, gone, names[i]);
        headers.Delete(names[i]);
        gone := gone + {names[i]};
      }
      i := i + 1;
    }
    assert names[..i] == names;
    ReservedGone(source, gone);
  }

  method AppendStaying(headers: Headers, cookies: seq<string>, hostname: string)
    modifies headers
    ensures headers.list == old(headers.list) + CookieHeaders(Staying(cookies, hostname))
  {
    hide StaysOnHost;
    ghost var start := headers.list;
    var i := 0;
    while i < |cookies|
      invariant 0 <= i <= |cookies|
      invariant headers.list == start + CookieHeaders(Staying(cookies[..i], hostname))
    {
      var stays := CookieStaysOnHost(cookies[i], hostname);
      assert cookies[..i + 1] == cookies[..i] + [cookies[i]];
      StayingAppend(cookies[..i], [cookies[i]], hostname);
      CookieHeadersAppend(Staying(cookies[..i], hostname), Staying([cookies[i]], hostname));
      assert Staying([cookies[i]], hostname) == if stays then [cookies[i]] else [];
      if stays {
        headers.Append("set-cookie", cookies[i]);
        assert CookieHeaders([cookies[i]]) == [Header("set-cookie", cookies[i])];
      }
      i := i + 1;
    }
    assert cookies[..i] == cookies;
  }

  // ---------------------------------------------------------------- what the answer carries

  lemma {:induction false} CookieValues(cookies: seq<string>, name: string)
    ensures Values(CookieHeaders(cookies), name) == if name == "set-cookie" then cookies else []
    ensures Without(CookieHeaders(cookies), "set-cookie") == []
    decreases |cookies|
  {
    if cookies != [] {
      var list := CookieHeaders(cookies);
      assert list[0] == Header("set-cookie", cookies[0]) && list[1..] == CookieHeaders(cookies[1..]);
      CookieValues(cookies[1..], name);
    }
  }

  lemma ValuesOfUnreserved(source: seq<Header>, ranCode: bool, name: string)
    ensures Values(Unreserved(source, ranCode), name) == if ranCode && IsReserved(name) then [] else Values(source, name)
  {
    hide IsReserved;
    if ranCode { ValuesOfFilter(source, NotReserved(), name); }
  }

  lemma ValuesOfCookiesFiltered(list: seq<Header>, hostname: string, name: string)
    ensures Values(CookiesFiltered(list, hostname), name)
      == if name == "set-cookie" then Staying(Values(list, "set-cookie"), hostname) else Values(list, name)
  {
    hide Filter, Staying, StaysOnHost;
    var cookies := Values(list, "set-cookie");
    if cookies == [] {
      assert Staying([], hostname) == [];
    } else {
      ValuesAppend(Without(list, "set-cookie"), CookieHeaders(Staying(cookies, hostname)), name);
      ValuesOfFilter(list, NoneOf({"set-cookie"}), name);
      CookieValues(Staying(cookies, hostname), name);
    }
  }

  /** What a secured list says under each name. */
  function SecuredValues(list: seq<Header>, preview: bool, name: string): seq<string> {
    if name == "x-content-type-options" then ["nosniff"]
    else if name == "x-robots-tag" && preview then ["noindex, nofollow"]
    else if name == "referrer-policy" && preview then ["no-referrer"]
    else if name == "referrer-policy" && Values(list, name) == [] then ["strict-origin-when-cross-origin"]
    else Values(list, name)
  }

  lemma ValuesOfSecured(list: seq<Header>, preview: bool, name: string)
    ensures Values(Secured(list, preview), name) == SecuredValues(list, preview, name)
  {
    hide Put, Values, Has;
    var sniffless := Put(list, "x-content-type-options", "nosniff");
    ValuesOfPut(list, "x-content-type-options", "nosniff", name);
    if preview {
      var unindexed := Put(sniffless, "x-robots-tag", "noindex, nofollow");
      ValuesOfPut(sniffless, "x-robots-tag", "noindex, nofollow", name);
      ValuesOfPut(unindexed, "referrer-policy", "no-referrer", name);
    } else {
      ValuesOfPut(list, "x-content-type-options", "nosniff", "referrer-policy");
      NoValuesIffAbsent(sniffless, "referrer-policy");
      ValuesOfPut(sniffless, "referrer-policy", "strict-origin-when-cross-origin", name);
    }
  }

  /** Everything an answer carries, name by name: its own values for what the router sets, of the cookies exactly
      those that stay on the host, in order, nothing reserved from code, and every other header as it was. */
  lemma WhatIsCarried(source: seq<Header>, hostname: string, ranCode: bool, preview: bool, name: string)
    ensures Values(ForSite(source, hostname, ranCode, preview), name)
      == if name == "set-cookie" then Staying(Values(source, name), hostname)
         else if ranCode && IsReserved(name) then []
         else SecuredValues(source, preview, name)
  {
    OwnNamesAreNotReserved();
    hide IsReserved, Secured, CookiesFiltered, Unreserved;
    var list := Unreserved(source, ranCode);
    ValuesOfUnreserved(source, ranCode, name);
    ValuesOfUnreserved(source, ranCode, "set-cookie");
    ValuesOfSecured(list, preview, name);
    ValuesOfSecured(list, preview, "set-cookie");
    ValuesOfCookiesFiltered(Secured(list, preview), hostname, name);
  }

  lemma OwnNamesAreNotReserved()
    ensures !IsReserved("x-content-type-options") && !IsReserved("x-robots-tag")
    ensures !IsReserved("referrer-policy") && !IsReserved("set-cookie")
  {
    assert INTERNAL_HEADER_PREFIX[0] == 'x' && INTERNAL_HEADER_PREFIX[2] == 'e' && CLOUDFLARE_HEADER_PREFIX[0] == 'c';
    assert "x-content-type-options"[2] == 'c' && "x-robots-tag"[2] == 'r';
    assert "x-content-type-options"[0] == "x-robots-tag"[0] == 'x' && "referrer-policy"[0] == 'r' && "set-cookie"[0] == 's';
  }

  // ---------------------------------------------------------------- idempotence

  lemma ValuesHead(list: seq<Header>, name: string)
    requires list != []
    ensures Values(list, name) == (if list[0].name == name then [list[0].value] else []) + Values(list[1..], name)
  {
  }

  lemma PutHead(list: seq<Header>, name: string, value: string)
    requires list != []
    ensures Put(list, name, value) ==
      if list[0].name == name then [Header(name, value)] + Without(list[1..], name) else [list[0]] + Put(list[1..], name, value)
  {
  }

  lemma NoValues(name: string)
    ensures Values([], name) == []
  {
  }

  lemma WithoutAbsent(list: seq<Header>, name: string)
    requires Values(list, name) == []
    ensures Without(list, name) == list
  {
    hide Values, Filter;
    NoValuesIffAbsent(list, name);
    forall h | h in list ensures NoneOf({name})(h.name) {
      var i :| 0 <= i < |list| && list[i] == h;
    }
    FilterAll(list, NoneOf({name}));
  }

  lemma {:induction false} PutKeeps(list: seq<Header>, name: string, value: string)
    requires Values(list, name) == [value]
    ensures Put(list, name, value) == list
    decreases |list|
  {
    hide Values, Put, Filter, Without;
    NoValues(name);
    ValuesHead(list, name);
    PutHead(list, name, value);
    if list[0].name == name {
      assert list[0].value == Values(list, name)[0] == value;
      WithoutAbsent(list[1..], name);
    } else {
      PutKeeps(list[1..], name, value);
    }
  }

  lemma {:induction false} StayingTwice(cookies: seq<string>, hostname: string)
    ensures Staying(Staying(cookies, hostname), hostname) == Staying(cookies, hostname)
    decreases |cookies|
  {
    hide StaysOnHost;
    if cookies != [] {
      StayingTwice(cookies[1..], hostname);
      StayingAppend(if StaysOnHost(cookies[0], hostname) then [cookies[0]] else [], Staying(cookies[1..], hostname), hostname);
    }
  }

  lemma SecuredKeeps(list: seq<Header>, preview: bool)
    requires forall name :: Values(list, name) == SecuredValues(list, preview, name)
    ensures Secured(list, preview) == list
  {
    hide Put, Values, Has;
    assert Values(list, "x-content-type-options") == ["nosniff"];
    PutKeeps(list, "x-content-type-options", "nosniff");
    if preview {
      assert Values(list, "x-robots-tag") == ["noindex, nofollow"];
      PutKeeps(list, "x-robots-tag", "noindex, nofollow");
      assert Values(list, "referrer-policy") == ["no-referrer"];
      PutKeeps(list, "referrer-policy", "no-referrer");
    } else {
      assert Values(list, "referrer-policy") != [];
      NoValuesIffAbsent(list, "referrer-policy");
    }
  }

  lemma CookiesFilteredTwice(list: seq<Header>, hostname: string)
    ensures CookiesFiltered(CookiesFiltered(list, hostname), hostname) == CookiesFiltered(list, hostname)
  {
    hide Filter, Staying, StaysOnHost, Values;
    var cookies := Values(list, "set-cookie");
    if cookies != [] {
      var rest := Without(list, "set-cookie");
      var staying := Staying(cookies, hostname);
      ValuesOfCookiesFiltered(list, hostname, "set-cookie");
      StayingTwice(cookies, hostname);
      FilterAppend(rest, CookieHeaders(staying), NoneOf({"set-cookie"}));
      FilterTwice(list, NoneOf({"set-cookie"}), NoneOf({"set-cookie"}), NoneOf({"set-cookie"}));
      CookieValues(staying, "set-cookie");
    }
  }

  /** Passing an answer through a second time changes nothing, not even the order. */
  lemma ForSiteTwice(source: seq<Header>, hostname: string, ranCode: bool, preview: bool)
    ensures
      var once := ForSite(source, hostname, ranCode, preview);
      ForSite(once, hostname, ranCode, preview) == once
  {
    hide IsReserved, Secured, CookiesFiltered, Values, Filter, StaysOnHost;
    var once := ForSite(source, hostname, ranCode, preview);
    CarriedIsClean(source, hostname, ranCode, preview);
    FilterAll(once, if ranCode then NotReserved() else NoneOf({}));
    SecuredKeeps(once, preview);
    CookiesFilteredTwice(Secured(Unreserved(source, ranCode), preview), hostname);
  }

  lemma CarriedIsClean(source: seq<Header>, hostname: string, ranCode: bool, preview: bool)
    ensures
      var once := ForSite(source, hostname, ranCode, preview);
      && (ranCode ==> forall h :: h in once ==> !IsReserved(h.name))
      && (forall name :: Values(once, name) == SecuredValues(once, preview, name))
  {
    hide IsReserved, ForSite, StaysOnHost, Values;
    var once := ForSite(source, hostname, ranCode, preview);
    OwnNamesAreNotReserved();
    forall h | h in once && ranCode ensures !IsReserved(h.name) {
      WhatIsCarried(source, hostname, ranCode, preview, h.name);
      var i :| 0 <= i < |once| && once[i] == h;
      NoValuesIffAbsent(once, h.name);
    }
    forall name ensures Values(once, name) == SecuredValues(once, preview, name) {
      WhatIsCarried(source, hostname, ranCode, preview, name);
    }
  }
}
