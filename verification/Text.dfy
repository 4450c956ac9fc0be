/** The string operations the sources lean on: searching, splitting, joining, trimming and printing. */
module Text {
  import opened Wrappers

  // ---------------------------------------------------------------- searching

  /** JavaScript's indexOf for one character. */
  function IndexOf(s: string, c: char): (i: nat)
    requires c in s
    ensures i < |s| && s[i] == c && c !in s[..i]
  {
    if s[0] == c then 0 else 1 + IndexOf(s[1..], c)
  }

  predicate OccursAt(s: string, pattern: string, i: nat) {
    i + |pattern| <= |s| && s[i..i + |pattern|] == pattern
  }

  /** JavaScript's indexOf for a string, starting at a position. */
  function FindFrom(s: string, pattern: string, from: nat): (found: Option<nat>)
    ensures found.Some? ==> from <= found.value && OccursAt(s, pattern, found.value)
    ensures forall i :: from <= i < (if found.Some? then found.value else |s| + 1) ==> !OccursAt(s, pattern, i)
    decreases |s| + 1 - from
  {
    if from > |s| then None
    else if OccursAt(s, pattern, from) then Some(from)
    else FindFrom(s, pattern, from + 1)
  }

  function Find(s: string, pattern: string): (found: Option<nat>)
    ensures found.Some? ==> OccursAt(s, pattern, found.value)
    ensures forall i :: 0 <= i < (if found.Some? then found.value else |s| + 1) ==> !OccursAt(s, pattern, i)
  {
    FindFrom(s, pattern, 0)
  }

  predicate StartsWith(s: string, prefix: string) {
    prefix <= s
  }

  predicate EndsWith(s: string, suffix: string) {
    |suffix| <= |s| && s[|s| - |suffix|..] == suffix
  }

  // ---------------------------------------------------------------- splitting and joining

  /** JavaScript's split on one character. */
  function Split(s: string, c: char): (parts: seq<string>)
    ensures parts != [] && forall i :: 0 <= i < |parts| ==> c !in parts[i]
    decreases |s|
  {
    if c in s then [s[..IndexOf(s, c)]] + Split(s[IndexOf(s, c) + 1..], c) else [s]
  }

  function Join(parts: seq<string>, separator: string): string {
    if |parts| == 0 then "" else if |parts| == 1 then parts[0] else parts[0] + separator + Join(parts[1..], separator)
  }

  lemma {:induction false} JoinOfSplit(s: string, c: char)
    ensures Join(Split(s, c), [c]) == s
    decreases |s|
  {
    if c in s {
      var i := IndexOf(s, c);
      JoinOfSplit(s[i + 1..], c);
      assert Split(s, c)[1..] == Split(s[i + 1..], c);
      assert s == s[..i] + [c] + s[i + 1..];
    }
  }

  lemma IndexOfAfter(head: string, c: char, rest: string)
    requires c !in head
    ensures c in head + [c] + rest && IndexOf(head + [c] + rest, c) == |head|
  {
    var s := head + [c] + rest;
    assert s[|head|] == c && forall k :: 0 <= k < |head| ==> s[k] == head[k];
    var i := IndexOf(s, c);
    if i < |head| { assert false; }
    if i > |head| { assert false; }
  }

  lemma {:induction false} SplitOfJoin(parts: seq<string>, c: char)
    requires parts != [] && forall i :: 0 <= i < |parts| ==> c !in parts[i]
    ensures Split(Join(parts, [c]), c) == parts
    decreases |parts|
  {
    if |parts| > 1 {
      var rest := Join(parts[1..], [c]);
      IndexOfAfter(parts[0], c, rest);
      SplitOfJoin(parts[1..], c);
      var s := parts[0] + [c] + rest;
      assert Join(parts, [c]) == s;
      assert s[..|parts[0]|] == parts[0] && s[|parts[0]| + 1..] == rest;
    }
  }

  // ---------------------------------------------------------------- characters

  /** The characters String.prototype.trim removes and \s matches. */
  predicate IsSpace(c: char) {
    || '\t' <= c <= '\r' || c == ' ' || c == '\U{A0}' || c == '\U{1680}'
    || '\U{2000}' <= c <= '\U{200A}' || c == '\U{2028}' || c == '\U{2029}'
    || c == '\U{202F}' || c == '\U{205F}' || c == '\U{3000}' || c == '\U{FEFF}'
  }

  function TrimStart(s: string): (r: string)
    ensures |r| <= |s| && r == s[|s| - |r|..]
    ensures r != "" ==> !IsSpace(r[0])
    ensures forall i :: 0 <= i < |s| - |r| ==> IsSpace(s[i])
  {
    if s != "" && IsSpace(s[0]) then TrimStart(s[1..]) else s
  }

  function TrimEnd(s: string): (r: string)
    ensures r <= s
    ensures r != "" ==> !IsSpace(r[|r| - 1])
    ensures forall i :: |r| <= i < |s| ==> IsSpace(s[i])
  {
    if s != "" && IsSpace(s[|s| - 1]) then TrimEnd(s[..|s| - 1]) else s
  }

  function Trim(s: string): string {
    TrimEnd(TrimStart(s))
  }

  predicate Blank(s: string) {
    forall i :: 0 <= i < |s| ==> IsSpace(s[i])
  }

  /** No space at either end. */
  predicate Tight(s: string) {
    s == "" || (!IsSpace(s[0]) && !IsSpace(s[|s| - 1]))
  }

  lemma {:induction false} TrimStartOf(a: string, s: string)
    requires Blank(a) && (s == "" || !IsSpace(s[0]))
    ensures TrimStart(a + s) == s
    decreases |a|
  {
    if a == "" {
      assert a + s == s;
    } else {
      assert (a + s)[1..] == a[1..] + s;
      TrimStartOf(a[1..], s);
    }
  }

  lemma {:induction false} TrimEndOf(s: string, d: string)
    requires Blank(d) && (s == "" || !IsSpace(s[|s| - 1]))
    ensures TrimEnd(s + d) == s
    decreases |d|
  {
    if d == "" {
      assert s + d == s;
    } else {
      assert (s + d)[..|s + d| - 1] == s + d[..|d| - 1];
      TrimEndOf(s, d[..|d| - 1]);
    }
  }

  lemma TrimOf(a: string, s: string, d: string)
    requires Blank(a) && Tight(s) && Blank(d)
    ensures Trim(a + s + d) == s
  {
    hide IsSpace;
    if s == "" {
      TrimStartOf(a + d, "");
      assert a + s + d == a + d + "";
      TrimEndOf("", "");
      assert "" + "" == "";
    } else {
      assert a + s + d == a + (s + d);
      TrimStartOf(a, s + d);
      TrimEndOf(s, d);
    }
  }

  /** What trimming takes away is blank. */
  lemma TrimSplits(s: string) returns (a: string, d: string)
    ensures s == a + Trim(s) + d && Blank(a) && Blank(d) && Tight(Trim(s))
  {
    hide IsSpace, TrimStart, TrimEnd;
    var t := TrimStart(s);
    a := s[..|s| - |t|];
    d := t[|TrimEnd(t)|..];
    assert s == a + t && t == Trim(s) + d;
  }

  predicate IsUpper(c: char) { 'A' <= c <= 'Z' }

  predicate IsDigit(c: char) { '0' <= c <= '9' }

  function LowerChar(c: char): (l: char)
    ensures !IsUpper(l)
  {
    if IsUpper(c) then 'a' + (c - 'A') else c
  }

  /** Lower-casing of ASCII letters. */
  function Lower(s: string): (l: string)
    ensures |l| == |s| && forall i :: 0 <= i < |l| ==> l[i] == LowerChar(s[i])
  {
    seq(|s|, i requires 0 <= i < |s| => LowerChar(s[i]))
  }

  // ---------------------------------------------------------------- numbers

  function Digit(d: nat): char
    requires d < 10
  {
    '0' + d as char
  }

  /** A natural number in decimal, as String(n) prints it. */
  function Decimal(n: nat): (s: string)
    ensures s != "" && forall i :: 0 <= i < |s| ==> IsDigit(s[i])
  {
    if n < 10 then [Digit(n)] else Decimal(n / 10) + [Digit(n % 10)]
  }
}
