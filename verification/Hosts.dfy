/** Which hosts a site's server code may name. */
module Hosts {
  import opened Wrappers
  import opened Text
  import opened Bits
  import opened Ipv6
  import opened Addresses

  // ---------------------------------------------------------------- public IPv6

  /** publicIPv6 */
  predicate PublicIpv6(address: string) {
    match Expand(address)
    case None => false
    case Some(groups) =>
      |groups| >= 2
      && BitAnd(groups[0], 0xe000) == 0x2000
      && !(groups[0] == 0x2002 || (groups[0] == 0x2001 && (groups[1] == 0x0db8 || groups[1] == 0)))
  }

  /** An address as a number, the first group highest. */
  function Number(groups: seq<nat>): nat {
    if groups == [] then 0 else groups[0] * Pow2(16 * (|groups| - 1)) + Number(groups[1..])
  }

  const TWO_96: int := 0x1_0000_0000_0000_0000_0000_0000
  const TWO_112: int := 0x1_0000 * TWO_96

  lemma Scaled(a: nat, b: nat, k: nat)
    requires a <= b
    ensures a * k <= b * k
  {
  }

  lemma {:induction false} NumberFits(groups: seq<nat>)
    requires forall i :: 0 <= i < |groups| ==> groups[i] < 0x1_0000
    ensures Number(groups) < Pow2(16 * |groups|)
    decreases |groups|
  {
    hide Pow2;
    if groups != [] {
      var below := 16 * (|groups| - 1);
      NumberFits(groups[1..]);
      SixteenBits();
      PowersDivide(below + 16, below);
      Scaled(groups[0] + 1, 0x1_0000, Pow2(below));
      assert (groups[0] + 1) * Pow2(below) == groups[0] * Pow2(below) + Pow2(below);
    } else {
      assert Pow2(0) > 0;
    }
  }

  lemma LargePowers()
    ensures Pow2(96) == TWO_96 && Pow2(112) == TWO_112
  {
    hide Pow2;
    Pow2Of32();
    PowersDivide(64, 32);
    PowersDivide(96, 64);
    PowersDivide(112, 96);
    SixteenBits();
  }

  lemma SixteenBits()
    ensures Pow2(13) == 0x2000 && Pow2(16) == 0x1_0000
  {
    assert Pow2(8) == 0x100;
  }

  lemma NumberSplits(groups: seq<nat>)
    requires |groups| == 8 && forall i :: 0 <= i < 8 ==> groups[i] < 0x1_0000
    ensures Number(groups[2..]) < TWO_96
    ensures Number(groups) == groups[0] * TWO_112 + groups[1] * TWO_96 + Number(groups[2..])
  {
    hide Pow2;
    LargePowers();
    NumberFits(groups[2..]);
    assert groups[1..][1..] == groups[2..];
    assert Number(groups[1..]) == groups[1] * TWO_96 + Number(groups[2..]);
  }

  /** Global unicast space without documentation, 6to4 and Teredo, as numbers. */
  predicate GlobalUnicast(n: int) {
    && 0x2000 * TWO_112 <= n < 0x4000 * TWO_112
    && !(0x2002 * TWO_112 <= n < 0x2003 * TWO_112)
    && !(0x2001 * TWO_112 + 0x0db8 * TWO_96 <= n < 0x2001 * TWO_112 + 0x0db9 * TWO_96)
    && !(0x2001 * TWO_112 <= n < 0x2001 * TWO_112 + TWO_96)
  }

  /** The top three bits of a group are 001 exactly in one interval. */
  lemma TopBits(group: nat)
    requires group < 0x1_0000
    ensures BitAnd(group, 0xe000) == 0x2000 <==> 0x2000 <= group < 0x4000
  {
    hide Pow2, And;
    SixteenBits();
    AndWithHighOnes(group, 16, 13);
    assert ToUint32(group) == group;
  }

  /** However an address is written, it counts as public exactly when its number lies in the public space. */
  lemma PublicIpv6IsGlobalUnicast(spelling: Spelling)
    requires WellSpelled(spelling)
    ensures PublicIpv6(Print(spelling)) <==> GlobalUnicast(Number(Meaning(spelling)))
  {
    hide Number, Print, Expand, Meaning, BitAnd, GlobalUnicast;
    var groups := Meaning(spelling);
    ExpandInvertsPrint(spelling);
    ExpandAcceptsSpellingsOnly(Print(spelling));
    TopBits(groups[0]);
    NumberSplits(groups);
    GroupsDecide(Number(groups), groups[0], groups[1], Number(groups[2..]));
  }

  /** The ranges of the public space, told from the first two groups. */
  lemma GroupsDecide(n: int, first: nat, second: nat, low: int)
    requires first < 0x1_0000 && second < 0x1_0000 && 0 <= low < TWO_96 && n == first * TWO_112 + second * TWO_96 + low
    ensures GlobalUnicast(n) <==>
      && 0x2000 <= first < 0x4000
      && !(first == 0x2002 || (first == 0x2001 && (second == 0x0db8 || second == 0)))
  {
  }

  // ---------------------------------------------------------------- host names

  /** The host a URL names, without a root-zone dot; none when a label is empty. */
  function CanonicalHost(hostname: string): Option<string> {
    if hostname == "" || StartsWith(hostname, ".") || Find(hostname, "..").Some? then None
    else
      var lower := Lower(hostname);
      Some(if EndsWith(lower, ".") then lower[..|lower| - 1] else lower)
  }

  /** A name with a root-zone dot is judged as the name without it, which is its own in lower case, empty labels apart. */
  lemma RootDotIsIgnored(hostname: string)
    requires hostname != "" && hostname[|hostname| - 1] != '.'
    ensures CanonicalHost(hostname + ".") == CanonicalHost(hostname)
    ensures CanonicalHost(hostname).Some? ==> CanonicalHost(hostname).value == Lower(hostname)
  {
    hide Find, Lower, EndsWith;
    NoMoreDots(hostname);
    LowerDotted(hostname);
    assert (hostname + ".")[0] == hostname[0];
  }

  lemma NoMoreDots(hostname: string)
    requires hostname != "" && hostname[|hostname| - 1] != '.'
    ensures Find(hostname + ".", "..").Some? <==> Find(hostname, "..").Some?
  {
    var dotted := hostname + ".";
    forall i: nat ensures OccursAt(dotted, "..", i) <==> OccursAt(hostname, "..", i) {
      if i + 2 <= |hostname| {
        assert dotted[i..i + 2] == hostname[i..i + 2];
      } else if i + 2 == |dotted| {
        assert dotted[i..i + 2][0] == hostname[i] != '.';
      }
    }
  }

  lemma LowerDotted(hostname: string)
    requires hostname != "" && hostname[|hostname| - 1] != '.'
    ensures EndsWith(Lower(hostname + "."), ".") && !EndsWith(Lower(hostname), ".")
    ensures var lower := Lower(hostname + "."); lower[..|lower| - 1] == Lower(hostname)
  {
    var (lower, bare) := (Lower(hostname + "."), Lower(hostname));
    assert lower[|lower| - 1..] == "." && lower[..|lower| - 1] == bare;
    assert bare[|bare| - 1] == LowerChar(hostname[|hostname| - 1]) != '.';
  }

  /** slice(1, -1) */
  function Inner(s: string): string {
    if |s| <= 2 then "" else s[1..|s| - 1]
  }

  function StripBrackets(entry: string): string {
    var tail := if StartsWith(entry, "[") then entry[1..] else entry;
    if EndsWith(tail, "]") then tail[..|tail| - 1] else tail
  }

  /** One entry of the platform's list: an address in any spelling, a domain with its subdomains, or a host. */
  predicate Lists(entry: string, host: string) {
    if ':' in entry then
      StartsWith(host, "[")
      && Expand(Inner(host)).Some?
      && Expand(StripBrackets(entry)) == Expand(Inner(host))
    else if StartsWith(entry, ".") then host == entry[1..] || EndsWith(host, entry)
    else host == entry
  }

  predicate IsPlatformHost(host: string, platform: seq<string>) {
    exists i :: 0 <= i < |platform| && Lists(platform[i], host)
  }

  /** Local names, and address literals outside the public internet. */
  predicate BlockedAddress(host: string) {
    if host == "localhost" || EndsWith(host, ".localhost") || EndsWith(host, ".local") || EndsWith(host, ".internal") then true
    else if StartsWith(host, "[") then !PublicIpv6(Inner(host))
    else
      match Ipv4(host)
      case None => false
      case Some(octets) => |octets| >= 3 && !OutsideBlocks(octets[0], octets[1], octets[2])
  }

  /** A literal as it stands in a host. */
  function Literal(spelling: Spelling): string {
    "[" + Print(spelling) + "]"
  }

  lemma LiteralFacts(spelling: Spelling)
    requires WellSpelled(spelling)
    ensures ':' in Literal(spelling) && '.' !in Literal(spelling)
    ensures StartsWith(Literal(spelling), "[") && Inner(Literal(spelling)) == Print(spelling)
  {
    var s := Print(spelling);
    ExpandInvertsPrint(spelling);
    match spelling
    case Full(groups) => assert s[|groups[0]|] == ':';
    case Compressed(left, right) => assert s[|Join(left, ":")|] == ':';
  }

  /** An IPv6 literal is the platform's exactly when some entry is a spelling of the same address: neither the
      entry's spelling nor the literal's matters. */
  lemma PlatformLiteralIff(spelling: Spelling, platform: seq<string>)
    requires WellSpelled(spelling)
    ensures IsPlatformHost(Literal(spelling), platform) <==>
      exists i :: 0 <= i < |platform| && ':' in platform[i] && Expand(StripBrackets(platform[i])) == Some(Meaning(spelling))
  {
    hide Expand, Print, Meaning, StripBrackets;
    var host := Literal(spelling);
    LiteralFacts(spelling);
    ExpandInvertsPrint(spelling);
    forall i | 0 <= i < |platform| && Lists(platform[i], host)
      ensures ':' in platform[i] && Expand(StripBrackets(platform[i])) == Some(Meaning(spelling))
    {
      EntryWithoutColon(platform[i], host);
    }
  }

  lemma SuffixStarts(s: string, suffix: string)
    requires suffix != "" && EndsWith(s, suffix)
    ensures suffix[0] in s
  {
    assert s[|s| - |suffix|..][0] == s[|s| - |suffix|];
  }

  lemma EntryWithoutColon(entry: string, host: string)
    requires ':' in host && '.' !in host && Lists(entry, host)
    ensures ':' in entry
  {
    if ':' !in entry && StartsWith(entry, ".") && EndsWith(host, entry) { SuffixStarts(host, entry); }
  }

  /** The decisions about a literal are decisions about its address. */
  lemma DecisionsIgnoreSpelling(one: Spelling, other: Spelling, platform: seq<string>)
    requires WellSpelled(one) && WellSpelled(other) && Meaning(one) == Meaning(other)
    ensures BlockedAddress(Literal(one)) == BlockedAddress(Literal(other))
    ensures IsPlatformHost(Literal(one), platform) == IsPlatformHost(Literal(other), platform)
  {
    BlockedLiteralIff(one);
    BlockedLiteralIff(other);
    PlatformLiteralIff(one, platform);
    PlatformLiteralIff(other, platform);
  }

  lemma BlockedLiteralIff(spelling: Spelling)
    requires WellSpelled(spelling)
    ensures BlockedAddress(Literal(spelling)) <==> !GlobalUnicast(Number(Meaning(spelling)))
  {
    hide GlobalUnicast, PublicIpv6, Number, Meaning, Print;
    var host := Literal(spelling);
    LiteralFacts(spelling);
    PublicIpv6IsGlobalUnicast(spelling);
    assert host[|host| - 1] == ']';
  }

  /** A dotted quad is blocked exactly when its address is multicast or lies in a registry entry that is not global. */
  lemma BlockedQuadIff(octets: seq<nat>)
    requires |octets| == 4 && forall i :: 0 <= i < 4 ==> octets[i] <= 255
    ensures
      var address := Quad(octets[0], octets[1], octets[2], octets[3]);
      BlockedAddress(Dotted(octets)) <==> NotGlobal(address) || Multicast(address)
  {
    hide Ipv4, OutsideBlocks, NotGlobal, Multicast, Quad;
    var host := Dotted(octets);
    Ipv4InvertsDotted(octets);
    DottedEnds(octets);
    PublicIffGlobal(octets[0], octets[1], octets[2], octets[3]);
  }

  lemma DottedEnds(octets: seq<nat>)
    requires |octets| == 4
    ensures var host := Dotted(octets); host != "" && IsDigit(host[0]) && IsDigit(host[|host| - 1])
  {
    var tokens := seq(|octets|, i requires 0 <= i < |octets| => Decimal(octets[i]));
    JoinEnds(tokens);
  }

  lemma {:induction false} JoinEnds(tokens: seq<string>)
    requires tokens != [] && forall i :: 0 <= i < |tokens| ==> tokens[i] != ""
    ensures var s := Join(tokens, "."); s != "" && s[0] == tokens[0][0] && s[|s| - 1] == tokens[|tokens| - 1][|tokens[|tokens| - 1]| - 1]
    decreases |tokens|
  {
    if |tokens| > 1 { JoinEnds(tokens[1..]); }
  }
}
