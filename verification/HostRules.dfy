/** What the decisions about a host come to, told from the labels of its name and the addresses it spells. */
module HostRules {
  import opened Wrappers
  import opened Text
  import opened Bits
  import opened Ipv6
  import opened Addresses
  import opened Hosts

  // ---------------------------------------------------------------- labels

  function Labels(host: string): seq<string> {
    Split(host, '.')
  }

  lemma SplitAtFirst(head: string, c: char, rest: string)
    requires c !in head
    ensures Split(head + [c] + rest, c) == [head] + Split(rest, c)
  {
    var s := head + [c] + rest;
    IndexOfAfter(head, c, rest);
    assert s[..|head|] == head && s[|head| + 1..] == rest;
  }

  lemma SplitAtNone(s: string, c: char)
    requires c !in s
    ensures Split(s, c) == [s]
  {
  }

  lemma {:induction false} SplitOfBoth(a: string, c: char, b: string)
    ensures Split(a + [c] + b, c) == Split(a, c) + Split(b, c)
    decreases |a|
  {
    hide Split;
    if c in a {
      var (head, rest) := (a[..IndexOf(a, c)], a[IndexOf(a, c) + 1..]);
      assert a == head + [c] + rest;
      assert a + [c] + b == head + [c] + (rest + [c] + b);
      SplitAtFirst(head, c, rest + [c] + b);
      SplitAtFirst(head, c, rest);
      SplitOfBoth(rest, c, b);
    } else {
      SplitAtFirst(a, c, b);
      SplitAtNone(a, c);
    }
  }

  lemma {:induction false} JoinOfBoth(first: seq<string>, second: seq<string>, separator: string)
    requires first != [] && second != []
    ensures Join(first + second, separator) == Join(first, separator) + separator + Join(second, separator)
    decreases |first|
  {
    if |first| > 1 {
      JoinOfBoth(first[1..], second, separator);
      assert (first + second)[1..] == first[1..] + second;
    } else {
      assert (first + second)[1..] == second;
    }
  }

  /** The domain's labels are the last ones of the host. */
  predicate Within(host: string, domain: string) {
    var (h, d) := (Labels(host), Labels(domain));
    |d| <= |h| && h[|h| - |d|..] == d
  }

  predicate Below(host: string, domain: string) {
    Within(host, domain) && |Labels(domain)| < |Labels(host)|
  }

  /** Ending in a dot and a domain is having more labels than it, of which its own are the last. */
  lemma BelowIffEnds(host: string, domain: string)
    ensures EndsWith(host, "." + domain) <==> Below(host, domain)
    ensures host == domain <==> Labels(host) == Labels(domain)
  {
    hide Split, Join;
    var (h, d) := (Labels(host), Labels(domain));
    JoinOfSplit(host, '.');
    JoinOfSplit(domain, '.');
    if EndsWith(host, "." + domain) {
      var a := host[..|host| - |domain| - 1];
      assert host == a + ['.'] + domain;
      SplitOfBoth(a, '.', domain);
      assert h == Split(a, '.') + d;
    }
    if Below(host, domain) {
      var k := |h| - |d|;
      assert h == h[..k] + d;
      JoinOfBoth(h[..k], d, ".");
      assert host == Join(h[..k], ".") + ("." + domain);
    }
  }

  // ---------------------------------------------------------------- the host a URL names

  predicate IsLowerOf(l: char, c: char) {
    if 'A' <= c <= 'Z' then l == 'a' + (c - 'A') else l == c
  }

  /** No label is empty, so the name neither starts nor ends with a dot and has no two in a row. */
  predicate WellLabelled(host: string) {
    forall i :: 0 <= i < |Labels(host)| ==> Labels(host)[i] != ""
  }

  /** The host is the hostname, or what stands before its last dot, in lower case, and no label of it is empty. */
  predicate Canonical(hostname: string, host: string) {
    && (|host| == |hostname| || (|host| + 1 == |hostname| && hostname[|host|] == '.'))
    && (forall i :: 0 <= i < |host| ==> IsLowerOf(host[i], hostname[i]))
    && WellLabelled(host)
  }

  predicate DotsAt(s: string, i: int) {
    0 <= i < |s| - 1 && s[i] == '.' && s[i + 1] == '.'
  }

  ghost predicate TwoDots(s: string) {
    exists i :: DotsAt(s, i)
  }

  lemma {:induction false} WellLabelledIff(s: string)
    ensures WellLabelled(s) <==> s != "" && s[0] != '.' && s[|s| - 1] != '.' && !TwoDots(s)
    decreases |s|
  {
    hide WellLabelled, TwoDots, IndexOf;
    if '.' in s {
      var i := IndexOf(s, '.');
      WellLabelledIff(s[i + 1..]);
      FirstLabel(s, i);
      DotsOfRest(s, i);
    } else {
      OneLabel(s);
    }
  }

  lemma OneLabel(s: string)
    requires '.' !in s
    ensures WellLabelled(s) <==> s != ""
    ensures !TwoDots(s) && (s != "" ==> s[0] != '.' && s[|s| - 1] != '.')
  {
    SplitAtNone(s, '.');
    assert Labels(s)[0] == s;
  }

  lemma FirstLabel(s: string, i: nat)
    requires i < |s| && s[i] == '.' && '.' !in s[..i]
    ensures WellLabelled(s) <==> i > 0 && WellLabelled(s[i + 1..])
  {
    hide Split;
    var (head, rest) := (s[..i], s[i + 1..]);
    assert s == head + ['.'] + rest;
    SplitAtFirst(head, '.', rest);
    var (all, others) := (Labels(s), Labels(rest));
    assert all == [head] + others;
    if WellLabelled(s) {
      forall k | 0 <= k < |others| ensures others[k] != "" { assert all[k + 1] == others[k]; }
      assert all[0] == head;
    }
  }

  /** What the dots after the first one say of the whole. */
  lemma DotsOfRest(s: string, i: nat)
    requires i < |s| && s[i] == '.' && '.' !in s[..i]
    ensures
      var rest := s[i + 1..];
      (i > 0 && rest != "" && rest[0] != '.' && rest[|rest| - 1] != '.' && !TwoDots(rest))
        <==> (s[0] != '.' && s[|s| - 1] != '.' && !TwoDots(s))
  {
    var rest := s[i + 1..];
    assert forall k :: 0 <= k < i ==> s[k] == s[..i][k] != '.';
    if TwoDots(rest) {
      var k :| DotsAt(rest, k);
      assert DotsAt(s, i + 1 + k);
    }
    if TwoDots(s) && rest != "" && rest[0] != '.' {
      var k :| DotsAt(s, k);
      assert k > i;
      assert DotsAt(rest, k - i - 1);
    }
    if rest != "" && rest[0] == '.' { assert DotsAt(s, i); }
  }

  lemma FindDots(s: string)
    ensures Find(s, "..").Some? <==> TwoDots(s)
  {
    if Find(s, "..").Some? {
      var i := Find(s, "..").value;
      assert s[i] == s[i..i + 2][0] && s[i + 1] == s[i..i + 2][1];
      assert DotsAt(s, i);
    }
    if TwoDots(s) {
      var i :| DotsAt(s, i);
      assert s[i..i + 2] == "..";
      assert OccursAt(s, "..", i);
    }
  }

  lemma LowerKeepsDots(s: string)
    ensures forall i :: 0 <= i < |s| ==> (Lower(s)[i] == '.' <==> s[i] == '.')
    ensures TwoDots(Lower(s)) <==> TwoDots(s)
  {
    forall i ensures DotsAt(Lower(s), i) <==> DotsAt(s, i) {
    }
  }

  /** A URL names a host exactly when that host is its hostname, or the hostname less a root-zone dot, in lower case and
      with no empty label; so it names at most one, and none exactly when the hostname is empty, starts with a dot or has
      two in a row. */
  lemma CanonicalHostIff(hostname: string, host: string)
    ensures CanonicalHost(hostname) == Some(host) <==> Canonical(hostname, host)
    ensures CanonicalHost(hostname).None? <==> hostname == "" || hostname[0] == '.' || TwoDots(hostname)
  {
    hide TwoDots, WellLabelled;
    FindDots(hostname);
    LowerKeepsDots(hostname);
    WellLabelledIff(host);
    if CanonicalHost(hostname).Some? { CanonicalHostIs(hostname); }
    if Canonical(hostname, host) { CanonicalIsHost(hostname, host); }
  }

  lemma PartHasNoDots(s: string, n: nat)
    requires n <= |s| && !TwoDots(s)
    ensures !TwoDots(s[..n])
  {
    forall i ensures !DotsAt(s[..n], i) { assert !DotsAt(s, i); }
  }

  lemma DotStandsAlone(s: string)
    requires |s| > 1 && !TwoDots(s) && s[|s| - 1] == '.'
    ensures s[|s| - 2] != '.'
  {
    assert !DotsAt(s, |s| - 2);
  }

  lemma OneMoreDot(s: string, n: nat)
    requires 0 < n <= |s| <= n + 1 && s[n - 1] != '.' && !TwoDots(s[..n])
    ensures !TwoDots(s)
  {
    forall i ensures !DotsAt(s, i) { assert !DotsAt(s[..n], i); }
  }

  lemma CanonicalHostIs(hostname: string)
    requires CanonicalHost(hostname).Some?
    ensures hostname != "" && hostname[0] != '.' && !TwoDots(hostname)
    ensures Canonical(hostname, CanonicalHost(hostname).value)
  {
    hide WellLabelled;
    var (lower, host) := (Lower(hostname), CanonicalHost(hostname).value);
    FindDots(hostname);
    LowerKeepsDots(hostname);
    assert StartsWith(hostname, ".") <==> hostname != "" && hostname[0] == '.';
    EndsInChar(lower, '.');
    PartHasNoDots(lower, |host|);
    if EndsWith(lower, ".") { DotStandsAlone(lower); }
    WellLabelledIff(host);
  }

  lemma EndsInChar(s: string, c: char)
    ensures EndsWith(s, [c]) <==> s != "" && s[|s| - 1] == c
  {
    if s != "" { assert s[|s| - 1..] == [s[|s| - 1]]; }
  }

  lemma CanonicalIsHost(hostname: string, host: string)
    requires Canonical(hostname, host)
    ensures CanonicalHost(hostname) == Some(host)
    ensures hostname != "" && hostname[0] != '.' && !TwoDots(hostname)
  {
    hide WellLabelled;
    WellLabelledIff(host);
    var lower := Lower(hostname);
    FindDots(hostname);
    LowerKeepsDots(hostname);
    EndsInChar(lower, '.');
    assert lower[..|host|] == host;
    OneMoreDot(lower, |host|);
    assert |host| < |hostname| ==> lower[|host|] == '.';
    assert lower[..|lower|] == lower;
    assert StartsWith(hostname, ".") <==> hostname != "" && hostname[0] == '.';
  }

  // ---------------------------------------------------------------- blocked hosts

  /** localhost and what is below it, and what is below the local and internal domains. */
  predicate LocalName(host: string) {
    Within(host, "localhost") || Below(host, "local") || Below(host, "internal")
  }

  ghost predicate IsQuad(host: string, octets: seq<nat>) {
    exists tokens :: (|tokens| == 4 && AllOctets(tokens) && Join(tokens, ".") == host && OctetValues(tokens) == octets
                      && forall i :: 0 <= i < |octets| ==> octets[i] <= 255)
  }

  /** A dotted quad, leading zeros allowed, whose address is multicast or in a registry entry that is not global. */
  ghost predicate PrivateQuad(host: string) {
    exists octets :: IsQuad(host, octets) && |octets| == 4
      && (NotGlobal(Quad(octets[0], octets[1], octets[2], octets[3])) || Multicast(Quad(octets[0], octets[1], octets[2], octets[3])))
  }

  ghost predicate SpellsGlobal(address: string) {
    exists spelling :: WellSpelled(spelling) && Print(spelling) == address && GlobalUnicast(Number(Meaning(spelling)))
  }

  /** A bracketed host that is no spelling of a global unicast address, or of no address at all. */
  ghost predicate PrivateLiteral(host: string) {
    host != "" && host[0] == '[' && !SpellsGlobal(if |host| >= 2 then host[1..|host| - 1] else "")
  }

  lemma SingleLabel(host: string, name: string)
    requires '.' !in name
    ensures Labels(name) == [name]
    ensures Within(host, name) <==> host == name || Below(host, name)
  {
    SplitAtNone(name, '.');
    BelowIffEnds(host, name);
    if Within(host, name) && !Below(host, name) { assert Labels(host)[0..] == Labels(host); }
  }

  lemma LocalNameIff(host: string)
    ensures LocalName(host) <==>
      host == "localhost" || EndsWith(host, ".localhost") || EndsWith(host, ".local") || EndsWith(host, ".internal")
  {
    hide Within, Below, EndsWith;
    var (a, b, c) := ("localhost", "local", "internal");
    SingleLabel(host, a);
    BelowIffEnds(host, a);
    BelowIffEnds(host, b);
    BelowIffEnds(host, c);
    assert "." + a == ".localhost" && "." + b == ".local" && "." + c == ".internal";
  }

  lemma PublicIffSpellsGlobal(address: string)
    ensures PublicIpv6(address) <==> SpellsGlobal(address)
  {
    hide Print, Meaning, GlobalUnicast, Number, BitAnd, WellSpelled;
    if PublicIpv6(address) {
      hide PublicIpv6;
      ParsesIfPublic(address);
      ExpandAcceptsSpellingsOnly(address);
      PublicIpv6IsGlobalUnicast(SpellingOf(address));
    }
    hide *;
    if spelling :| WellSpelled(spelling) && Print(spelling) == address && GlobalUnicast(Number(Meaning(spelling))) {
      PublicIpv6IsGlobalUnicast(spelling);
    }
  }

  lemma ParsesIfPublic(address: string)
    requires PublicIpv6(address)
    ensures Expand(address).Some?
  {
    hide Expand, BitAnd;
  }

  lemma OctetsOf(host: string)
    requires Ipv4(host).Some?
    ensures |Ipv4(host).value| == 4 && forall i :: 0 <= i < 4 ==> Ipv4(host).value[i] <= 255
    ensures IsQuad(host, Ipv4(host).value)
    ensures host != "" && host[0] != '['
  {
    var octets := Ipv4(host).value;
    Ipv4Iff(host, octets);
    var tokens :| |tokens| == 4 && AllOctets(tokens) && Join(tokens, ".") == host && OctetValues(tokens) == octets
                  && forall i :: 0 <= i < |octets| ==> octets[i] <= 255;
    JoinEnds(tokens);
    assert IsDigit(tokens[0][0]);
  }

  lemma QuadIsRead(host: string, octets: seq<nat>)
    requires IsQuad(host, octets)
    ensures Ipv4(host) == Some(octets)
  {
    hide AllOctets, Join;
    Ipv4Iff(host, octets);
  }

  lemma QuadIffPrivate(host: string)
    ensures PrivateQuad(host) <==>
      && Ipv4(host).Some? && |Ipv4(host).value| == 4
      && !OutsideBlocks(Ipv4(host).value[0], Ipv4(host).value[1], Ipv4(host).value[2])
  {
    hide Ipv4, OutsideBlocks, NotGlobal, Multicast, Quad, IsQuad;
    forall octets | IsQuad(host, octets) ensures Ipv4(host) == Some(octets) { QuadIsRead(host, octets); }
    if Ipv4(host).Some? {
      OctetsOf(host);
      var octets := Ipv4(host).value;
      PublicIffGlobal(octets[0], octets[1], octets[2], octets[3]);
    }
  }

  /** Whether a host is blocked: it is a local name, a bracketed literal that spells no global unicast address, or a
      dotted quad that is not global; any other name is not. */
  lemma BlockedIff(host: string)
    ensures BlockedAddress(host) <==> LocalName(host) || PrivateLiteral(host) || PrivateQuad(host)
  {
    hide LocalName, PrivateQuad, SpellsGlobal, OutsideBlocks, Ipv4, PublicIpv6, IsQuad, EndsWith;
    LocalNameIff(host);
    QuadIffPrivate(host);
    PublicIffSpellsGlobal(Inner(host));
    if Ipv4(host).Some? { OctetsOf(host); }
    assert |host| >= 2 ==> Inner(host) == host[1..|host| - 1];
    assert StartsWith(host, "[") <==> host != "" && host[0] == '[';
  }

  // ---------------------------------------------------------------- the platform's hosts

  /** An entry lists a name: with a leading dot the domain after it and everything below, else that very name. */
  predicate ListsName(entry: string, host: string) {
    ':' !in entry && if entry != "" && entry[0] == '.' then Within(host, entry[1..]) else host == entry
  }

  lemma WithinIff(host: string, domain: string)
    ensures Within(host, domain) <==> host == domain || EndsWith(host, "." + domain)
  {
    BelowIffEnds(host, domain);
    var (h, d) := (Labels(host), Labels(domain));
    hide Labels, EndsWith;
    if |h| == |d| { assert h[0..] == h; }
  }

  lemma ListsNameIff(entry: string, host: string)
    requires host == "" || host[0] != '['
    ensures Lists(entry, host) <==> ListsName(entry, host)
  {
    hide Within, EndsWith, Expand;
    assert StartsWith(entry, ".") <==> entry != "" && entry[0] == '.';
    assert StartsWith(host, "[") <==> host != "" && host[0] == '[';
    if StartsWith(entry, ".") {
      WithinIff(host, entry[1..]);
      assert entry == "." + entry[1..];
    }
  }

  /** A host that is no literal is the platform's exactly when some entry without a colon lists its name. */
  lemma PlatformNameIff(host: string, platform: seq<string>)
    requires host == "" || host[0] != '['
    ensures IsPlatformHost(host, platform) <==> exists i :: 0 <= i < |platform| && ListsName(platform[i], host)
  {
    hide Lists, ListsName;
    forall i | 0 <= i < |platform| ensures Lists(platform[i], host) <==> ListsName(platform[i], host) {
      ListsNameIff(platform[i], host);
    }
  }

  /** Of the platform's entries with a colon it makes no difference whether they stand in brackets: either way one lists
      a literal exactly when both spell one address. */
  lemma EntrySpellsLiteral(entry: Spelling, spelling: Spelling)
    requires WellSpelled(entry) && WellSpelled(spelling)
    ensures Lists(Literal(entry), Literal(spelling)) <==> Meaning(entry) == Meaning(spelling)
    ensures Lists(Print(entry), Literal(spelling)) <==> Meaning(entry) == Meaning(spelling)
  {
    hide Expand, Print, Meaning, WellSpelled, Inner;
    LiteralFacts(entry);
    LiteralFacts(spelling);
    ExpandInvertsPrint(entry);
    ExpandInvertsPrint(spelling);
    PrintEnds(entry);
    var (text, bracketed) := (Print(entry), Literal(entry));
    assert bracketed[1..] == text + "]" && (text + "]")[..|text|] == text && (text + "]")[|text|..] == "]";
    EndsInChar(text, ']');
  }

  lemma PrintEnds(spelling: Spelling)
    requires WellSpelled(spelling)
    ensures var s := Print(spelling); s != "" && s[0] != '[' && s[|s| - 1] != ']' && ':' in s
  {
    hide GroupValue;
    match spelling
    case Full(groups) => GroupEnds(groups); LiteralFacts(spelling);
    case Compressed(left, right) =>
      GroupEnds(left);
      GroupEnds(right);
      assert Print(spelling)[|Join(left, ":")|] == ':';
  }

  lemma {:induction false} GroupEnds(tokens: seq<string>)
    requires AllGroups(tokens)
    ensures var s := Join(tokens, ":"); s != "" ==> s[0] != '[' && s[|s| - 1] != ']'
    decreases |tokens|
  {
    if |tokens| > 0 {
      GroupEnds(tokens[1..]);
      if |tokens| > 1 { JoinedGroups(tokens[1..]); }
      assert IsGroup(tokens[0]);
    }
  }

  // ---------------------------------------------------------------- hosts as they are written

  function LowerAll(tokens: seq<string>): (lower: seq<string>)
    ensures |lower| == |tokens| && forall i :: 0 <= i < |tokens| ==> lower[i] == Lower(tokens[i])
  {
    seq(|tokens|, i requires 0 <= i < |tokens| => Lower(tokens[i]))
  }

  lemma {:induction false} LowerOfJoin(tokens: seq<string>, separator: string)
    requires Lower(separator) == separator
    ensures Lower(Join(tokens, separator)) == Join(LowerAll(tokens), separator)
    decreases |tokens|
  {
    if |tokens| > 1 {
      LowerOfJoin(tokens[1..], separator);
      assert LowerAll(tokens)[1..] == LowerAll(tokens[1..]);
    }
  }

  /** The hostname of these labels, with a root-zone dot or without. */
  function Written(labels: seq<string>, dotted: bool): string {
    Join(labels, ".") + if dotted then "." else ""
  }

  predicate AreLabels(labels: seq<string>) {
    labels != [] && forall i :: 0 <= i < |labels| ==> labels[i] != "" && '.' !in labels[i]
  }

  lemma LowerLabels(labels: seq<string>)
    requires AreLabels(labels)
    ensures AreLabels(LowerAll(labels))
    ensures Labels(Join(LowerAll(labels), ".")) == LowerAll(labels)
  {
    var lower := LowerAll(labels);
    forall i | 0 <= i < |lower| ensures lower[i] != "" && '.' !in lower[i] {
      LowerKeepsDots(labels[i]);
    }
    SplitOfJoin(lower, '.');
  }

  /** Written with a root-zone dot or without, and in whatever case, labels name the host of the same labels in lower case. */
  lemma WrittenNames(labels: seq<string>, dotted: bool)
    requires AreLabels(labels)
    ensures CanonicalHost(Written(labels, dotted)) == Some(Join(LowerAll(labels), "."))
    ensures Labels(Join(LowerAll(labels), ".")) == LowerAll(labels)
  {
    hide Join, Split;
    var (hostname, host) := (Written(labels, dotted), Join(LowerAll(labels), "."));
    LowerLabels(labels);
    assert Lower(".") == ".";
    LowerOfJoin(labels, ".");
    forall i | 0 <= i < |host| ensures IsLowerOf(host[i], hostname[i]) {
      assert host[i] == LowerChar(Join(labels, ".")[i]);
    }
    CanonicalHostIff(hostname, host);
  }

  lemma {:induction false} HexOfLower(s: string)
    requires forall i :: 0 <= i < |s| ==> IsHex(s[i])
    ensures forall i :: 0 <= i < |s| ==> IsHex(Lower(s)[i])
    ensures HexValue(Lower(s)) == HexValue(s)
    decreases |s|
  {
    if s != "" {
      var init := s[..|s| - 1];
      HexOfLower(init);
      assert Lower(s)[..|s| - 1] == Lower(init);
    }
  }

  lemma GroupsOfLower(tokens: seq<string>)
    requires AllGroups(tokens)
    ensures AllGroups(LowerAll(tokens)) && GroupValues(LowerAll(tokens)) == GroupValues(tokens)
  {
    forall i | 0 <= i < |tokens| ensures IsGroup(LowerAll(tokens)[i]) && GroupValue(LowerAll(tokens)[i]) == GroupValue(tokens[i]) {
      HexOfLower(tokens[i]);
    }
  }

  function LowerSpelling(spelling: Spelling): Spelling {
    match spelling
    case Full(groups) => Full(LowerAll(groups))
    case Compressed(left, right) => Compressed(LowerAll(left), LowerAll(right))
  }

  lemma LowerOfBoth(a: string, b: string)
    ensures Lower(a + b) == Lower(a) + Lower(b)
  {
  }

  lemma LowerPrint(spelling: Spelling)
    ensures Lower(Print(spelling)) == Print(LowerSpelling(spelling))
  {
    hide Lower, LowerAll, Join;
    assert Lower(":") == ":" && Lower("::") == "::";
    match spelling
    case Full(groups) => LowerOfJoin(groups, ":");
    case Compressed(left, right) =>
      LowerOfJoin(left, ":");
      LowerOfJoin(right, ":");
      LowerOfBoth(Join(left, ":") + "::", Join(right, ":"));
      LowerOfBoth(Join(left, ":"), "::");
  }

  lemma LowerMeaning(spelling: Spelling)
    requires WellSpelled(spelling)
    ensures WellSpelled(LowerSpelling(spelling)) && Meaning(LowerSpelling(spelling)) == Meaning(spelling)
  {
    hide GroupValues, AllGroups;
    match spelling
    case Full(groups) => GroupsOfLower(groups);
    case Compressed(left, right) =>
      GroupsOfLower(left);
      GroupsOfLower(right);
  }

  /** A literal in lower case spells the same address. */
  lemma LowerLiteral(spelling: Spelling)
    requires WellSpelled(spelling)
    ensures WellSpelled(LowerSpelling(spelling)) && Meaning(LowerSpelling(spelling)) == Meaning(spelling)
    ensures Lower(Literal(spelling)) == Literal(LowerSpelling(spelling))
  {
    hide WellSpelled, Meaning, LowerSpelling, Print, Lower;
    LowerMeaning(spelling);
    LowerPrint(spelling);
    assert Lower("[") == "[" && Lower("]") == "]";
    LowerOfBoth("[" + Print(spelling), "]");
    LowerOfBoth("[", Print(spelling));
  }

  /** An IPv6 literal, in any spelling, with a dot behind it or without, is blocked exactly when its address is not global
      unicast. */
  lemma WrittenLiteralIff(spelling: Spelling, dotted: bool)
    requires WellSpelled(spelling)
    ensures
      var host := CanonicalHost(Written([Literal(spelling)], dotted));
      host.Some? && (BlockedAddress(host.value) <==> !GlobalUnicast(Number(Meaning(spelling))))
  {
    hide Meaning, Number, GlobalUnicast, BlockedAddress, CanonicalHost, Print;
    LiteralFacts(spelling);
    WrittenNames([Literal(spelling)], dotted);
    LowerLiteral(spelling);
    BlockedLiteralIff(LowerSpelling(spelling));
  }

  lemma QuadTokens(tokens: seq<string>)
    requires |tokens| == 4 && AllOctets(tokens)
    ensures AreLabels(tokens) && LowerAll(tokens) == tokens
  {
    forall i | 0 <= i < 4 ensures tokens[i] != "" && '.' !in tokens[i] && Lower(tokens[i]) == tokens[i] {
      assert IsOctetToken(tokens[i]);
    }
  }

  /** A dotted quad, with leading zeros or without, with a dot behind it or without, is blocked exactly when its address is
      not global or multicast. */
  lemma WrittenQuadIff(tokens: seq<string>, dotted: bool)
    requires |tokens| == 4 && AllOctets(tokens) && forall i :: 0 <= i < 4 ==> OctetValues(tokens)[i] <= 255
    ensures
      var (host, o) := (CanonicalHost(Written(tokens, dotted)), OctetValues(tokens));
      && host.Some?
      && (BlockedAddress(host.value) <==> NotGlobal(Quad(o[0], o[1], o[2], o[3])) || Multicast(Quad(o[0], o[1], o[2], o[3])))
  {
    hide BlockedAddress, CanonicalHost, NotGlobal, Multicast, Quad, AllOctets, Join, LocalName, PrivateLiteral;
    QuadTokens(tokens);
    WrittenNames(tokens, dotted);
    var host := Join(tokens, ".");
    assert IsQuad(host, OctetValues(tokens));
    QuadIsRead(host, OctetValues(tokens));
    OctetsOf(host);
    QuadOnly(host, OctetValues(tokens));
    QuadIsNoName(host, tokens);
    BlockedIff(host);
  }

  lemma QuadOnly(host: string, octets: seq<nat>)
    requires Ipv4(host) == Some(octets) && |octets| == 4 && IsQuad(host, octets)
    ensures PrivateQuad(host) <==>
      NotGlobal(Quad(octets[0], octets[1], octets[2], octets[3])) || Multicast(Quad(octets[0], octets[1], octets[2], octets[3]))
  {
    hide Ipv4, IsQuad, NotGlobal, Multicast, Quad;
    forall other | IsQuad(host, other) ensures other == octets { QuadIsRead(host, other); }
  }

  lemma QuadIsNoName(host: string, tokens: seq<string>)
    requires |tokens| == 4 && AllOctets(tokens) && host == Join(tokens, ".") && Labels(host) == tokens && host != "" && host[0] != '['
    ensures !LocalName(host) && !PrivateLiteral(host)
  {
    hide Join, Split;
    SingleLabel(host, "localhost");
    SingleLabel(host, "local");
    SingleLabel(host, "internal");
    assert IsOctetToken(tokens[3]);
    assert !IsDigit("local"[0]) && !IsDigit("localhost"[0]) && !IsDigit("internal"[0]);
  }

  /** Any other name is blocked exactly when its last label, in whatever case, is localhost, or stands below local or
      internal. */
  lemma WrittenNameIff(labels: seq<string>, dotted: bool)
    requires AreLabels(labels) && labels[0][0] != '['
    requires !Numeric(labels[|labels| - 1])
    ensures
      var (host, last) := (CanonicalHost(Written(labels, dotted)), Lower(labels[|labels| - 1]));
      host.Some? && (BlockedAddress(host.value) <==> last == "localhost" || (|labels| > 1 && (last == "local" || last == "internal")))
  {
    hide BlockedAddress, CanonicalHost, Join, PrivateQuad;
    WrittenNames(labels, dotted);
    var host := Join(LowerAll(labels), ".");
    LastLabelDecides(host, labels);
    NameIsNoAddress(host, labels);
    BlockedIff(host);
  }

  lemma LastIs(host: string, name: string)
    requires '.' !in name
    ensures
      var h := Labels(host);
      (Within(host, name) <==> h[|h| - 1] == name) && (Below(host, name) <==> |h| > 1 && h[|h| - 1] == name)
  {
    hide Split;
    SingleLabel(host, name);
    var h := Labels(host);
    assert h[|h| - 1..] == [h[|h| - 1]];
  }

  lemma LastLabelDecides(host: string, labels: seq<string>)
    requires AreLabels(labels) && Labels(host) == LowerAll(labels)
    ensures
      var last := Lower(labels[|labels| - 1]);
      LocalName(host) <==> last == "localhost" || (|labels| > 1 && (last == "local" || last == "internal"))
  {
    hide Labels, Within, Below;
    LastIs(host, "localhost");
    LastIs(host, "local");
    LastIs(host, "internal");
  }

  predicate Numeric(s: string) {
    forall i :: 0 <= i < |s| ==> IsDigit(s[i])
  }

  lemma NumericIgnoresCase(s: string)
    ensures Numeric(Lower(s)) <==> Numeric(s)
  {
    if Numeric(Lower(s)) {
      forall i | 0 <= i < |s| ensures IsDigit(s[i]) { assert IsDigit(Lower(s)[i]); }
    }
  }

  lemma NotQuad(host: string, i: nat)
    requires i < |Labels(host)| && !Numeric(Labels(host)[i])
    ensures Ipv4(host).None?
  {
  }

  lemma NameIsNoAddress(host: string, labels: seq<string>)
    requires AreLabels(labels) && labels[0][0] != '[' && host == Join(LowerAll(labels), ".") && Labels(host) == LowerAll(labels)
    requires !Numeric(labels[|labels| - 1])
    ensures !PrivateLiteral(host) && !PrivateQuad(host)
  {
    hide SpellsGlobal, Labels, Numeric, Ipv4, PrivateQuad;
    LowerLabels(labels);
    JoinEnds(LowerAll(labels));
    QuadIffPrivate(host);
    NumericIgnoresCase(labels[|labels| - 1]);
    NotQuad(host, |labels| - 1);
  }
}
