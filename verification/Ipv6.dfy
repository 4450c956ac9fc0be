/** The IPv6 literals of the outbound filter: parsing, and the decisions made on the parsed groups. */
module Ipv6 {
  import opened Wrappers
  import opened Text

  // ---------------------------------------------------------------- hex groups

  predicate IsHex(c: char) {
    IsDigit(c) || 'a' <= c <= 'f' || 'A' <= c <= 'F'
  }

  function HexDigit(c: char): (d: nat)
    requires IsHex(c)
    ensures d < 16
  {
    if IsDigit(c) then (c - '0') as nat else if 'a' <= c <= 'f' then 10 + (c - 'a') as nat else 10 + (c - 'A') as nat
  }

  /** One to four hex digits, in either case. */
  predicate IsGroup(s: string) {
    1 <= |s| <= 4 && forall i :: 0 <= i < |s| ==> IsHex(s[i])
  }

  function HexValue(s: string): nat
    requires forall i :: 0 <= i < |s| ==> IsHex(s[i])
  {
    if s == "" then 0 else 16 * HexValue(s[..|s| - 1]) + HexDigit(s[|s| - 1])
  }

  /** parseInt(group, 16). */
  function GroupValue(s: string): (g: nat)
    requires IsGroup(s)
    ensures g < 0x10000
  {
    assert |s| > 1 ==> HexValue(s[..|s| - 1]) < 0x1000 by { HexBound(s[..|s| - 1]); }
    HexBound(s);
    HexValue(s)
  }

  lemma {:induction false} HexBound(s: string)
    requires |s| <= 4 && forall i :: 0 <= i < |s| ==> IsHex(s[i])
    ensures HexValue(s) < (if |s| == 0 then 1 else if |s| == 1 then 0x10 else if |s| == 2 then 0x100 else if |s| == 3 then 0x1000 else 0x10000)
    decreases |s|
  {
    if s != "" { HexBound(s[..|s| - 1]); }
  }

  predicate AllGroups(tokens: seq<string>) {
    forall i :: 0 <= i < |tokens| ==> IsGroup(tokens[i])
  }

  function GroupValues(tokens: seq<string>): (groups: seq<nat>)
    requires AllGroups(tokens)
    ensures |groups| == |tokens| && forall i :: 0 <= i < |groups| ==> groups[i] == GroupValue(tokens[i])
  {
    seq(|tokens|, i requires 0 <= i < |tokens| => GroupValue(tokens[i]))
  }

  // ---------------------------------------------------------------- parsing

  /** JavaScript's split("::"). */
  function SplitDouble(s: string): (parts: seq<string>)
    ensures parts != []
    decreases |s|
  {
    match Find(s, "::")
    case Some(i) => [s[..i]] + SplitDouble(s[i + 2..])
    case None => [s]
  }

  function Zeros(n: nat): (tokens: seq<string>)
    ensures |tokens| == n
  {
    seq(n, i => "0")
  }

  /** The tokens on one side of "::"; none when that side is empty. */
  function Side(s: string): seq<string> {
    if s == "" then [] else Split(s, ':')
  }

  /** expandIPv6: the eight groups an address stands for, or none when it is not an address. */
  function Expand(address: string): Option<seq<nat>> {
    if '.' in address then None
    else
      var parts := SplitDouble(address);
      if |parts| > 2 then None
      else
        var left := Side(parts[0]);
        var right := if |parts| == 2 then Side(parts[1]) else [];
        if (|parts| == 1 && |left| != 8) || |left| + |right| > 8 then None
        else
          var tokens := Filled(left, right);
          if AllGroups(tokens) then Some(GroupValues(tokens)) else None
  }

  /** The two sides with zeros in between to make eight; nothing to fill when the left side has all of them. */
  function Filled(left: seq<string>, right: seq<string>): seq<string>
    requires |left| + |right| <= 8
  {
    left + Zeros(8 - |left| - |right|) + right
  }

  // ---------------------------------------------------------------- printing

  /** How an address is written: all eight groups, or two runs of groups around one "::". */
  datatype Spelling = Full(groups: seq<string>) | Compressed(left: seq<string>, right: seq<string>)

  /** Any hex digits in any case for each group; "::" takes the place of the groups not written. */
  predicate WellSpelled(spelling: Spelling) {
    match spelling
    case Full(groups) => |groups| == 8 && AllGroups(groups)
    case Compressed(left, right) => |left| + |right| <= 8 && AllGroups(left) && AllGroups(right)
  }

  function Print(spelling: Spelling): string {
    match spelling
    case Full(groups) => Join(groups, ":")
    case Compressed(left, right) => Join(left, ":") + "::" + Join(right, ":")
  }

  /** The address a spelling stands for. */
  function Meaning(spelling: Spelling): (groups: seq<nat>)
    requires WellSpelled(spelling)
    ensures |groups| == 8
  {
    match spelling
    case Full(groups) => GroupValues(groups)
    case Compressed(left, right) => GroupValues(left) + seq(8 - |left| - |right|, i => 0) + GroupValues(right)
  }

  // ---------------------------------------------------------------- parsing inverts printing

  lemma GroupLacks(token: string)
    requires IsGroup(token)
    ensures ':' !in token && '.' !in token
  {
  }

  lemma DoubleIsTwoColons(s: string, i: nat)
    ensures OccursAt(s, "::", i) <==> i + 2 <= |s| && s[i] == ':' && s[i + 1] == ':'
  {
    if i + 2 <= |s| { assert s[i..i + 2] == [s[i], s[i + 1]]; }
  }

  lemma NoDouble(s: string)
    requires forall i :: 0 <= i < |s| - 1 ==> !(s[i] == ':' && s[i + 1] == ':')
    ensures forall i :: 0 <= i <= |s| ==> !OccursAt(s, "::", i)
  {
    forall i | 0 <= i <= |s| ensures !OccursAt(s, "::", i) { DoubleIsTwoColons(s, i); }
  }

  /** Joined groups have no colon at either end and no two in a row. */
  lemma {:induction false} JoinedGroups(tokens: seq<string>)
    requires AllGroups(tokens) && tokens != []
    ensures
      var s := Join(tokens, ":");
      s != "" && s[0] != ':' && s[|s| - 1] != ':' && '.' !in s && forall i :: 0 <= i < |s| ==> !OccursAt(s, "::", i)
    decreases |tokens|
  {
    GroupLacks(tokens[0]);
    var s := Join(tokens, ":");
    if |tokens| == 1 {
      NoDouble(s);
    } else {
      var rest := Join(tokens[1..], ":");
      JoinedGroups(tokens[1..]);
      var n := |tokens[0]|;
      assert s == tokens[0] + ":" + rest;
      assert forall k :: 0 <= k < n ==> s[k] == tokens[0][k];
      assert s[n + 1] == rest[0];
      forall i | 0 <= i < |s| - 1 ensures !(s[i] == ':' && s[i + 1] == ':') {
        if i < n {
          assert s[i] != ':';
        } else if i > n {
          assert s[i] == rest[i - n - 1] && s[i + 1] == rest[i - n];
          DoubleIsTwoColons(rest, i - n - 1);
        }
      }
      NoDouble(s);
    }
  }

  lemma SideOfJoin(tokens: seq<string>)
    requires AllGroups(tokens)
    ensures Side(Join(tokens, ":")) == tokens
  {
    if tokens != [] {
      JoinedGroups(tokens);
      forall i | 0 <= i < |tokens| ensures ':' !in tokens[i] { GroupLacks(tokens[i]); }
      SplitOfJoin(tokens, ':');
    }
  }

  /** Where nothing but one "::" can match, splitting gives the two sides. */
  lemma SplitAround(left: string, right: string)
    requires left == "" || left[|left| - 1] != ':'
    requires right == "" || right[0] != ':'
    requires forall i :: 0 <= i < |left| ==> !OccursAt(left, "::", i)
    requires forall i :: 0 <= i < |right| ==> !OccursAt(right, "::", i)
    ensures SplitDouble(left + "::" + right) == [left, right]
  {
    hide Find, OccursAt;
    var s := left + "::" + right;
    FoundAround(left, right);
    NotFound(right);
    assert s[..|left|] == left && s[|left| + 2..] == right;
    assert SplitDouble(right) == [right];
  }

  lemma FoundAround(left: string, right: string)
    requires left == "" || left[|left| - 1] != ':'
    requires forall i :: 0 <= i < |left| ==> !OccursAt(left, "::", i)
    ensures Find(left + "::" + right, "::") == Some(|left|)
  {
    hide OccursAt;
    var s := left + "::" + right;
    forall i | 0 <= i < |left| ensures !OccursAt(s, "::", i) {
      DoubleIsTwoColons(s, i);
      DoubleIsTwoColons(left, i);
    }
    DoubleIsTwoColons(s, |left|);
    assert OccursAt(s, "::", |left|);
  }

  lemma NotFound(s: string)
    requires forall i :: 0 <= i < |s| ==> !OccursAt(s, "::", i)
    ensures Find(s, "::").None?
  {
    DoubleIsTwoColons(s, |s|);
  }

  /** Filling adds groups that are zero and nothing else. */
  lemma FilledValues(left: seq<string>, right: seq<string>)
    requires |left| + |right| <= 8
    ensures AllGroups(Filled(left, right)) <==> AllGroups(left) && AllGroups(right)
    ensures AllGroups(left) && AllGroups(right) ==>
      GroupValues(Filled(left, right)) == GroupValues(left) + seq(8 - |left| - |right|, i => 0) + GroupValues(right)
  {
    var n := 8 - |left| - |right|;
    var tokens := Filled(left, right);
    assert IsGroup("0") && GroupValue("0") == 0 by { assert "0"[..0] == ""; }
    if AllGroups(tokens) {
      forall i | 0 <= i < |left| ensures IsGroup(left[i]) { assert tokens[i] == left[i]; }
      forall i | 0 <= i < |right| ensures IsGroup(right[i]) { assert tokens[|left| + n + i] == right[i]; }
    }
    hide IsGroup, GroupValue;
    if AllGroups(left) && AllGroups(right) {
      forall i | 0 <= i < |tokens| ensures IsGroup(tokens[i]) {
        if |left| <= i < |left| + n { assert tokens[i] == "0"; }
      }
    }
  }

  lemma NoGroups()
    ensures AllGroups([])
  {
  }

  /** Every spelling of an address parses to that address. */
  lemma ExpandInvertsPrint(spelling: Spelling)
    requires WellSpelled(spelling)
    ensures Expand(Print(spelling)) == Some(Meaning(spelling))
  {
    hide AllGroups, Split, Zeros, Join, Find;
    var s := Print(spelling);
    match spelling
    case Full(groups) =>
      SidesFit(groups);
      assert Find(s, "::").None? by { DoubleIsTwoColons(s, |s|); }
      assert SplitDouble(s) == [s];
      SideOfJoin(groups);
      FilledValues(groups, []);
      assert AllGroups([]) by { NoGroups(); }
      assert GroupValues(groups) + [] + GroupValues([]) == GroupValues(groups);
    case Compressed(left, right) =>
      SidesFit(left);
      SidesFit(right);
      var (l, r) := (Join(left, ":"), Join(right, ":"));
      SplitAround(l, r);
      assert s == l + "::" + r;
      assert '.' !in s;
      SideOfJoin(left);
      SideOfJoin(right);
      FilledValues(left, right);
  }

  lemma SidesFit(tokens: seq<string>)
    requires AllGroups(tokens)
    ensures
      var s := Join(tokens, ":");
      && (s == "" || (s[0] != ':' && s[|s| - 1] != ':'))
      && '.' !in s
      && forall i :: 0 <= i < |s| ==> !OccursAt(s, "::", i)
  {
    if tokens != [] { JoinedGroups(tokens); }
  }

  /** How the parsed text was spelled. */
  function SpellingOf(address: string): Spelling
    requires Expand(address).Some?
  {
    var parts := SplitDouble(address);
    if |parts| == 1 then Full(Side(parts[0])) else Compressed(Side(parts[0]), Side(parts[1]))
  }

  /** Whatever parses is a spelling of what it parses to, which has eight groups of sixteen bits. */
  lemma ExpandAcceptsSpellingsOnly(address: string)
    requires Expand(address).Some?
    ensures
      var spelling := SpellingOf(address);
      WellSpelled(spelling) && Print(spelling) == address && Meaning(spelling) == Expand(address).value
    ensures |Expand(address).value| == 8 && forall i :: 0 <= i < 8 ==> Expand(address).value[i] < 0x10000
  {
    hide IsGroup, Side, Join, GroupValue;
    var parts := SplitDouble(address);
    JoinSplitDouble(address);
    var left := Side(parts[0]);
    SideJoins(parts[0]);
    var right := if |parts| == 1 then [] else Side(parts[1]);
    if |parts| == 2 { SideJoins(parts[1]); }
    FilledValues(left, right);
    if |parts| == 1 { assert GroupValues(left) + [] + GroupValues(right) == GroupValues(left); }
  }

  lemma SideJoins(s: string)
    ensures Join(Side(s), ":") == s
  {
    if s != "" { JoinOfSplit(s, ':'); }
  }

  lemma JoinSplitDouble(s: string)
    requires |SplitDouble(s)| <= 2
    ensures s == if |SplitDouble(s)| == 1 then SplitDouble(s)[0] else SplitDouble(s)[0] + "::" + SplitDouble(s)[1]
  {
    match Find(s, "::")
    case None =>
    case Some(i) =>
      assert SplitDouble(s[i + 2..]) == [SplitDouble(s)[1]];
      assert s == s[..i] + s[i..i + 2] + s[i + 2..];
  }

  /** A text parses to a list of groups exactly when it is one of the spellings of that address. */
  lemma ExpandIff(address: string, groups: seq<nat>)
    ensures Expand(address) == Some(groups) <==>
      exists spelling :: WellSpelled(spelling) && Print(spelling) == address && Meaning(spelling) == groups
  {
    if Expand(address) == Some(groups) {
      ExpandAcceptsSpellingsOnly(address);
      assert WellSpelled(SpellingOf(address));
    }
    if spelling :| WellSpelled(spelling) && Print(spelling) == address && Meaning(spelling) == groups {
      ExpandInvertsPrint(spelling);
    }
  }

  // ---------------------------------------------------------------- addresses in hex

  function HexChar(d: nat): (c: char)
    requires d < 16
    ensures IsHex(c) && HexDigit(c) == d
  {
    "0123456789abcdef"[d]
  }

  /** A group in hex, without leading zeros. */
  function Hex(n: nat): (s: string)
    requires n < 0x10000
    ensures s != "" && forall i :: 0 <= i < |s| ==> IsHex(s[i])
  {
    if n < 16 then [HexChar(n)] else Hex(n / 16) + [HexChar(n % 16)]
  }

  lemma {:induction false} HexRoundTrip(n: nat)
    requires n < 0x10000
    ensures HexValue(Hex(n)) == n
    ensures |Hex(n)| <= if n < 0x10 then 1 else if n < 0x100 then 2 else if n < 0x1000 then 3 else 4
    decreases n
  {
    if n < 16 {
      assert Hex(n)[..0] == "";
    } else {
      HexRoundTrip(n / 16);
      assert Hex(n)[..|Hex(n)| - 1] == Hex(n / 16);
    }
  }

  function HexGroups(groups: seq<nat>): (tokens: seq<string>)
    requires forall i :: 0 <= i < |groups| ==> groups[i] < 0x10000
    ensures |tokens| == |groups| && forall i :: 0 <= i < |tokens| ==> tokens[i] == Hex(groups[i])
  {
    seq(|groups|, i requires 0 <= i < |groups| => Hex(groups[i]))
  }

  lemma HexGroupsRead(groups: seq<nat>)
    requires forall i :: 0 <= i < |groups| ==> groups[i] < 0x10000
    ensures AllGroups(HexGroups(groups)) && GroupValues(HexGroups(groups)) == groups
  {
    forall i | 0 <= i < |groups| ensures IsGroup(HexGroups(groups)[i]) && GroupValue(HexGroups(groups)[i]) == groups[i] {
      HexRoundTrip(groups[i]);
    }
  }

  /** Eight numbers printed in hex with colons between are read back, and so are they with zeros left out between "::". */
  lemma ExpandInvertsHex(left: seq<nat>, zeros: nat, right: seq<nat>)
    requires |left| + zeros + |right| == 8
    requires forall i :: 0 <= i < |left| ==> left[i] < 0x10000
    requires forall i :: 0 <= i < |right| ==> right[i] < 0x10000
    ensures
      var groups := left + seq(zeros, i => 0) + right;
      && Expand(Join(HexGroups(left), ":") + "::" + Join(HexGroups(right), ":")) == Some(groups)
      && Expand(Join(HexGroups(groups), ":")) == Some(groups)
  {
    hide Expand, Join, AllGroups, IsGroup;
    var groups := left + seq(zeros, i => 0) + right;
    HexGroupsRead(left);
    HexGroupsRead(right);
    HexGroupsRead(groups);
    ExpandInvertsPrint(Compressed(HexGroups(left), HexGroups(right)));
    ExpandInvertsPrint(Full(HexGroups(groups)));
    assert 8 - |left| - |right| == zeros;
  }
}
