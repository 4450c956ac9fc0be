/** Which cookies a site may set: the router's reading of Domain attributes, and the standard's. */
module Cookies {
  import opened Text

  // ---------------------------------------------------------------- the router

  /** A domain as it is compared: trimmed, in lower case, without one leading dot. */
  function DomainName(value: string): string {
    var lower := Lower(Trim(value));
    if StartsWith(lower, ".") then lower[1..] else lower
  }

  /** The domain of an attribute when it is a Domain attribute; none otherwise. */
  function DomainOf(attribute: string): seq<string> {
    var parts := Split(attribute, '=');
    if Lower(Trim(parts[0])) == "domain" then [DomainName(Join(parts[1..], "="))] else []
  }

  predicate NamesOnly(attribute: string, hostname: string) {
    forall domain :: domain in DomainOf(attribute) ==> domain == hostname
  }

  predicate StaysOnHost(cookie: string, hostname: string) {
    forall attribute :: attribute in Split(cookie, ';')[1..] ==> NamesOnly(attribute, hostname)
  }

  /** cookieStaysOnHost: walks the attributes and stops at the first Domain that names another host. */
  method CookieStaysOnHost(cookie: string, hostname: string) returns (stays: bool)
    ensures stays <==> StaysOnHost(cookie, hostname)
  {
    hide Lower, Trim, DomainName, Split, Join;
    var attributes := Split(cookie, ';')[1..];
    var i := 0;
    while i < |attributes|
      invariant 0 <= i <= |attributes|
      invariant forall k :: 0 <= k < i ==> NamesOnly(attributes[k], hostname)
    {
      var parts := Split(attributes[i], '=');
      if Lower(Trim(parts[0])) == "domain" {
        var domain := DomainName(Join(parts[1..], "="));
        assert domain in DomainOf(attributes[i]);
        if domain != hostname {
          assert !NamesOnly(attributes[i], hostname);
          return false;
        }
      }
      i := i + 1;
    }
    return true;
  }

  // ---------------------------------------------------------------- the standard

  /** Where a character first stands, or the end. */
  function Until(s: string, c: char): (n: nat)
    ensures n <= |s| && c !in s[..n] && (n < |s| ==> s[n] == c)
  {
    if s == "" || s[0] == c then 0 else 1 + Until(s[1..], c)
  }

  /** The part of a Set-Cookie value from its first semicolon on. */
  function Unparsed(cookie: string): string {
    cookie[Until(cookie, ';')..]
  }

  /** The attributes by the algorithm of section 5.2 of RFC 6265: what is left of the value, one at a time. */
  function Attributes(unparsed: string): seq<string>
    decreases |unparsed|
  {
    if unparsed == "" then []
    else
      var n := Until(unparsed[1..], ';');
      [unparsed[1..][..n]] + Attributes(unparsed[1..][n..])
  }

  predicate IsWsp(c: char) { c == ' ' || c == '\t' }

  function TrimWspStart(s: string): (r: string)
    ensures |r| <= |s| && r == s[|s| - |r|..]
    ensures forall i :: 0 <= i < |s| - |r| ==> IsWsp(s[i])
  {
    if s != "" && IsWsp(s[0]) then TrimWspStart(s[1..]) else s
  }

  function TrimWspEnd(s: string): (r: string)
    ensures r <= s
    ensures forall i :: |r| <= i < |s| ==> IsWsp(s[i])
  {
    if s != "" && IsWsp(s[|s| - 1]) then TrimWspEnd(s[..|s| - 1]) else s
  }

  /** Without spaces and tabs at either end. */
  function TrimWsp(s: string): string {
    TrimWspEnd(TrimWspStart(s))
  }

  function NamePart(attribute: string): string {
    attribute[..Until(attribute, '=')]
  }

  function ValuePart(attribute: string): string {
    var e := Until(attribute, '=');
    if e == |attribute| then "" else attribute[e + 1..]
  }

  function WithoutDot(value: string): string {
    if StartsWith(value, ".") then value[1..] else value
  }

  /** Section 5.2.3: an empty value is ignored, one leading dot dropped, the rest put in lower case. */
  function StandardDomain(attribute: string): seq<string> {
    var value := TrimWsp(ValuePart(attribute));
    if Lower(TrimWsp(NamePart(attribute))) == "domain" && value != "" then [Lower(WithoutDot(value))] else []
  }

  predicate StandardNamesOnly(attribute: string, hostname: string) {
    forall domain :: domain in StandardDomain(attribute) ==> domain == hostname
  }

  predicate StandardStays(cookie: string, hostname: string) {
    forall attribute :: attribute in Attributes(Unparsed(cookie)) ==> StandardNamesOnly(attribute, hostname)
  }

  // ---------------------------------------------------------------- the two cut a cookie alike

  lemma {:induction false} UntilIsIndex(s: string, c: char)
    requires c in s
    ensures Until(s, c) == IndexOf(s, c)
    decreases |s|
  {
    if s[0] != c { UntilIsIndex(s[1..], c); }
  }

  lemma SplitAtFirst(s: string, c: char)
    ensures
      var n := Until(s, c);
      Split(s, c) == if n == |s| then [s] else [s[..n]] + Split(s[n + 1..], c)
  {
    hide Until, IndexOf;
    if c in s {
      UntilIsIndex(s, c);
    } else {
      assert c !in s[..Until(s, c)];
    }
  }

  lemma {:induction false} AttributesAreParts(rest: string)
    requires rest != "" && rest[0] == ';'
    ensures Attributes(rest) == Split(rest[1..], ';')
    decreases |rest|
  {
    hide Split, Until;
    var n := Until(rest[1..], ';');
    var tail := rest[1..][n..];
    SplitAtFirst(rest[1..], ';');
    if tail == "" {
      assert rest[1..][..n] == rest[1..];
    } else {
      AttributesAreParts(tail);
      assert tail[1..] == rest[1..][n + 1..];
    }
  }

  /** Splitting at semicolons yields the standard's attributes. */
  lemma AttributesAreSplit(cookie: string)
    ensures Attributes(Unparsed(cookie)) == Split(cookie, ';')[1..]
  {
    hide Split, Until;
    SplitAtFirst(cookie, ';');
    var rest := Unparsed(cookie);
    if rest != "" {
      AttributesAreParts(rest);
      assert rest[1..] == cookie[Until(cookie, ';') + 1..];
    }
  }

  /** The router's reading, told from the same name and value. */
  lemma RouterReading(attribute: string)
    ensures DomainOf(attribute) == if Lower(Trim(NamePart(attribute))) == "domain" then [DomainName(ValuePart(attribute))] else []
  {
    hide Split, Until, Lower, Trim, DomainName;
    SplitAtFirst(attribute, '=');
    var e := Until(attribute, '=');
    if e == |attribute| {
      assert attribute[..e] == attribute;
    } else {
      JoinOfSplit(attribute[e + 1..], '=');
      assert Split(attribute, '=')[1..] == Split(attribute[e + 1..], '=');
    }
  }

  // ---------------------------------------------------------------- white space

  /** Other white space than spaces and tabs stands at an end. */
  predicate OtherSpace(s: string) {
    !Tight(TrimWsp(s))
  }

  lemma WspStartSplits(s: string) returns (a: string)
    ensures s == a + TrimWspStart(s) && Blank(a)
  {
    hide IsWsp, IsSpace, TrimWspStart, Blank;
    a := s[..|s| - |TrimWspStart(s)|];
    WspIsSpace(a);
  }

  lemma WspEndSplits(s: string) returns (d: string)
    ensures s == TrimWspEnd(s) + d && Blank(d)
  {
    hide IsWsp, IsSpace, TrimWspEnd, Blank;
    d := s[|TrimWspEnd(s)|..];
    WspIsSpace(d);
  }

  lemma WspSplits(s: string) returns (a: string, d: string)
    ensures s == a + TrimWsp(s) + d && Blank(a) && Blank(d)
  {
    hide IsWsp, IsSpace, TrimWspStart, TrimWspEnd, Blank;
    a := WspStartSplits(s);
    d := WspEndSplits(TrimWspStart(s));
    assert a + (TrimWsp(s) + d) == a + TrimWsp(s) + d;
  }

  /** Trimming spaces and tabs first makes no difference. */
  lemma TrimAfterWsp(s: string)
    ensures Trim(s) == Trim(TrimWsp(s))
  {
    hide IsSpace, Trim, TrimWsp, Blank, Tight;
    var a, d := WspSplits(s);
    var b, c := TrimSplits(TrimWsp(s));
    BlankTogether(a, b);
    BlankTogether(c, d);
    assert s == (a + b) + Trim(TrimWsp(s)) + (c + d);
    TrimOf(a + b, Trim(TrimWsp(s)), c + d);
  }

  /** Both ways of trimming leave the same exactly when there is none; else the router's leaves less, with a leading
      dot still leading. */
  lemma TrimsAgreeIff(s: string)
    ensures Trim(s) == TrimWsp(s) <==> !OtherSpace(s)
    ensures OtherSpace(s) ==> |Trim(s)| < |TrimWsp(s)|
    ensures StartsWith(TrimWsp(s), ".") ==> StartsWith(Trim(s), ".")
  {
    hide Trim, TrimWsp;
    TrimAfterWsp(s);
    DotIsNotSpace();
    hide IsSpace;
    var t := TrimWsp(s);
    var b, c := TrimSplits(t);
    if Tight(t) {
      assert t == "" + t + "";
      TrimOf("", t, "");
    }
    if StartsWith(t, ".") { TrimKeepsHead(t); }
  }

  lemma TrimKeepsHead(s: string)
    requires s != "" && !IsSpace(s[0])
    ensures Trim(s) != "" && Trim(s)[0] == s[0]
  {
  }

  lemma DotIsNotSpace()
    ensures !IsSpace('.')
  {
  }

  lemma WspIsSpace(s: string)
    requires forall i :: 0 <= i < |s| ==> IsWsp(s[i])
    ensures Blank(s)
  {
  }

  lemma BlankTogether(a: string, b: string)
    requires Blank(a) && Blank(b)
    ensures Blank(a + b)
  {
  }

  lemma LowerKeepsDot(value: string)
    ensures Lower(WithoutDot(value)) == WithoutDot(Lower(value))
    ensures |Lower(WithoutDot(value))| == |value| - if StartsWith(value, ".") then 1 else 0
  {
    if value != "" { assert LowerChar(value[0]) == '.' <==> value[0] == '.'; }
  }

  lemma LowerKeepsSpace(s: string)
    requires !Tight(s)
    ensures exists i :: 0 <= i < |Lower(WithoutDot(s))| && IsSpace(Lower(WithoutDot(s))[i])
  {
    var l := Lower(WithoutDot(s));
    var last := |l| - 1;
    if IsSpace(s[0]) {
      assert !StartsWith(s, ".");
      assert IsSpace(l[0]);
    } else {
      assert |s| > 1 && l[last] == LowerChar(s[|s| - 1]) && IsSpace(l[last]);
    }
  }

  // ---------------------------------------------------------------- where the readings differ

  /** The router reads a Domain attribute. */
  predicate IsDomain(attribute: string) {
    DomainOf(attribute) != []
  }

  /** A Domain attribute as anyone would write it: not empty, and with no other white space than spaces and tabs
      around its name and value. */
  predicate WellWritten(attribute: string) {
    && !OtherSpace(NamePart(attribute)) && !OtherSpace(ValuePart(attribute))
    && TrimWsp(ValuePart(attribute)) != ""
  }

  /** One attribute is read alike exactly when it is no Domain attribute or a well-written one. */
  lemma ReadAlikeIff(attribute: string)
    ensures DomainOf(attribute) == StandardDomain(attribute) <==> (IsDomain(attribute) ==> WellWritten(attribute))
  {
    var (name, value) := (NamePart(attribute), ValuePart(attribute));
    RouterReading(attribute);
    TrimsAgreeIff(name);
    TrimsAgreeIff(value);
    LowerKeepsDot(TrimWsp(value));
    LowerKeepsDot(Trim(value));
    NameTrims(name);
    hide Trim, TrimWsp, Lower, OtherSpace, NamePart, ValuePart, Split;
    if IsDomain(attribute) && StandardDomain(attribute) != [] && OtherSpace(value) {
      OtherSpaceShows(value);
    }
  }

  lemma NameTrims(name: string)
    ensures Lower(TrimWsp(name)) == "domain" ==> !OtherSpace(name)
    ensures Lower(Trim(name)) == "domain" && OtherSpace(name) ==> Lower(TrimWsp(name)) != "domain"
  {
    var l := Lower(TrimWsp(name));
    if l == "domain" {
      assert l[0] == 'd' && l[5] == 'n';
      assert LowerChar(TrimWsp(name)[0]) == 'd' && LowerChar(TrimWsp(name)[5]) == 'n';
    }
  }

  /** A value that trims further reads differently. */
  lemma OtherSpaceShows(value: string)
    requires OtherSpace(value)
    ensures Lower(WithoutDot(TrimWsp(value))) != DomainName(value)
  {
    hide Trim, TrimWsp, OtherSpace;
    TrimsAgreeIff(value);
    LowerKeepsDot(TrimWsp(value));
    LowerKeepsDot(Trim(value));
  }

  // ---------------------------------------------------------------- whole cookies

  /** Where every Domain attribute is well written, the router keeps exactly the cookies whose Domain attributes, as the
      standard reads them, all name the host. */
  lemma StaysOnHostIff(cookie: string, hostname: string)
    requires forall attribute :: attribute in Attributes(Unparsed(cookie)) && IsDomain(attribute) ==> WellWritten(attribute)
    ensures StaysOnHost(cookie, hostname) <==> StandardStays(cookie, hostname)
  {
    hide Attributes, Split, IsDomain, WellWritten, DomainOf, StandardDomain;
    AttributesAreSplit(cookie);
    forall attribute | attribute in Attributes(Unparsed(cookie)) ensures DomainOf(attribute) == StandardDomain(attribute) {
      ReadAlikeIff(attribute);
    }
  }

  predicate NoSpaces(s: string) {
    forall i :: 0 <= i < |s| ==> !IsSpace(s[i])
  }

  /** A value with other space around it names no host, to the standard. */
  lemma OtherSpaceNamesNoHost(attribute: string, hostname: string)
    requires NoSpaces(hostname) && StandardDomain(attribute) != [] && OtherSpace(ValuePart(attribute))
    ensures !StandardNamesOnly(attribute, hostname)
  {
    var value := TrimWsp(ValuePart(attribute));
    var domain := Lower(WithoutDot(value));
    LowerKeepsSpace(value);
    hide IsSpace, Lower, TrimWsp;
    assert domain in StandardDomain(attribute);
    var i :| 0 <= i < |domain| && IsSpace(domain[i]);
  }

  /** Of the cookies the router keeps, the standard objects exactly to those with a Domain value it does not trim as
      far. */
  lemma KeptAsTheStandardIff(cookie: string, hostname: string)
    requires StaysOnHost(cookie, hostname) && NoSpaces(hostname)
    ensures StandardStays(cookie, hostname) <==>
      forall attribute :: attribute in Attributes(Unparsed(cookie)) && StandardDomain(attribute) != [] ==>
        !OtherSpace(ValuePart(attribute))
  {
    hide Attributes, Split, DomainOf, StandardDomain, OtherSpace, NoSpaces, ValuePart;
    AttributesAreSplit(cookie);
    forall attribute | attribute in Attributes(Unparsed(cookie)) && StandardDomain(attribute) != []
      ensures StandardNamesOnly(attribute, hostname) <==> !OtherSpace(ValuePart(attribute))
    {
      if OtherSpace(ValuePart(attribute)) {
        OtherSpaceNamesNoHost(attribute, hostname);
      } else {
        StandardDomainIsRead(attribute);
        assert NamesOnly(attribute, hostname);
      }
    }
  }

  /** What the standard reads as a Domain without other space around its value, the router reads alike. */
  lemma StandardDomainIsRead(attribute: string)
    requires StandardDomain(attribute) != [] && !OtherSpace(ValuePart(attribute))
    ensures DomainOf(attribute) == StandardDomain(attribute)
  {
    hide Split, DomainOf;
    NameTrims(NamePart(attribute));
    hide Trim, TrimWsp, Lower, OtherSpace;
    ReadAlikeIff(attribute);
  }

  /** Of the cookies the standard allows, the router drops exactly those with an attribute that only the router takes
      for a Domain, empty or with other space around its name, and that does not name the host. */
  lemma DroppedByTheRouterIff(cookie: string, hostname: string)
    requires StandardStays(cookie, hostname) && NoSpaces(hostname)
    ensures StaysOnHost(cookie, hostname) <==>
      forall attribute :: attribute in Attributes(Unparsed(cookie)) && StandardDomain(attribute) == [] ==>
        NamesOnly(attribute, hostname)
  {
    hide Attributes, Split, DomainOf, StandardDomain, OtherSpace, NoSpaces, ValuePart;
    AttributesAreSplit(cookie);
    forall attribute | attribute in Attributes(Unparsed(cookie)) && StandardDomain(attribute) != []
      ensures NamesOnly(attribute, hostname)
    {
      assert StandardNamesOnly(attribute, hostname);
      if OtherSpace(ValuePart(attribute)) { OtherSpaceNamesNoHost(attribute, hostname); }
      StandardDomainIsRead(attribute);
    }
  }

  lemma TightTrims(s: string)
    requires Tight(s)
    ensures Trim(s) == s && TrimWsp(s) == s
  {
    hide IsSpace, IsWsp, Trim, TrimWsp;
    assert s == "" + s + "";
    BlankNothing();
    TrimOf("", s, "");
    if s == "" {
      EmptyTrims();
    } else {
      WspIsSpaces(s[0]);
      WspIsSpaces(s[|s| - 1]);
      NotTrimmed(s);
    }
  }

  lemma BlankNothing()
    ensures Blank("")
  {
  }

  lemma EmptyTrims()
    ensures TrimWsp("") == ""
  {
  }

  lemma LowerKeeps(s: string)
    requires forall i :: 0 <= i < |s| ==> !IsUpper(s[i])
    ensures Lower(s) == s
  {
  }

  /** Either reading of an attribute named "domain". */
  lemma DomainAttribute(name: string, value: string)
    requires name == "domain"
    ensures DomainOf(name + "=" + value) == [DomainName(value)]
    ensures StandardDomain(name + "=" + value) == if TrimWsp(value) != "" then [Lower(WithoutDot(TrimWsp(value)))] else []
  {
    hide Split, Trim, TrimWsp, Lower, NamePart, ValuePart, DomainName, WithoutDot, DomainOf;
    TightTrims(name);
    LowerKeeps(name);
    CutAt(name, value);
    RouterReading(name + "=" + value);
  }

  /** A cookie for one host, written with other white space before it, such as a no-break space: the router keeps it,
      the standard objects. */
  lemma KeptAgainstTheStandard(name: string, space: char, hostname: string)
    requires name == "domain" && IsSpace(space) && !IsWsp(space)
    requires hostname != "" && hostname[0] != '.' && Lower(hostname) == hostname && ';' !in hostname && NoSpaces(hostname)
    ensures
      var cookie := "a;" + (name + "=" + ([space] + hostname));
      StaysOnHost(cookie, hostname) && !StandardStays(cookie, hostname)
  {
    hide StaysOnHost, StandardStays, DomainOf, StandardDomain, DomainName, WithoutDot, TrimWsp, Lower;
    var value := [space] + hostname;
    var attribute := name + "=" + value;
    OneAttribute(attribute, hostname);
    DomainAttribute(name, value);
    SpaceBefore(space, hostname);
    assert Lower(WithoutDot(TrimWsp(value))) in StandardDomain(attribute);
  }

  lemma SpaceBefore(space: char, hostname: string)
    requires IsSpace(space) && !IsWsp(space)
    requires hostname != "" && hostname[0] != '.' && Lower(hostname) == hostname && NoSpaces(hostname)
    ensures DomainName([space] + hostname) == hostname
    ensures TrimWsp([space] + hostname) != "" && Lower(WithoutDot(TrimWsp([space] + hostname))) != hostname
  {
    hide IsSpace, IsWsp, TrimWsp, Trim, Lower;
    var value := [space] + hostname;
    WspIsSpaces(hostname[|hostname| - 1]);
    DotIsNotSpace();
    NotTrimmed(value);
    assert value == [space] + hostname + "";
    TrimOf([space], hostname, "");
    assert !StartsWith(hostname, ".") && !StartsWith(value, ".");
    LowerKeepsDot(value);
  }

  lemma WspIsSpaces(c: char)
    ensures IsWsp(c) ==> IsSpace(c)
  {
  }

  lemma NotTrimmed(s: string)
    requires s != "" && !IsWsp(s[0]) && !IsWsp(s[|s| - 1])
    ensures TrimWsp(s) == s
  {
  }

  /** A cookie with an empty Domain: the standard allows it, the router drops it. */
  lemma DroppedAgainstTheStandard(name: string, hostname: string)
    requires name == "domain" && hostname != ""
    ensures
      var cookie := "a;" + (name + "=");
      !StaysOnHost(cookie, hostname) && StandardStays(cookie, hostname)
  {
    hide StaysOnHost, StandardStays, DomainOf, StandardDomain, DomainName, WithoutDot, TrimWsp, Lower;
    var attribute := name + "=";
    assert attribute == name + "=" + "";
    OneAttribute(attribute, hostname);
    DomainAttribute(name, "");
    EmptyDomain();
    assert DomainName("") in DomainOf(attribute);
  }

  lemma EmptyDomain()
    ensures DomainName("") == "" && TrimWsp("") == ""
  {
    assert Trim("") == "";
  }

  /** A cookie with one attribute stands or falls with it. */
  lemma OneAttribute(attribute: string, hostname: string)
    requires ';' !in attribute
    ensures StaysOnHost("a;" + attribute, hostname) <==> NamesOnly(attribute, hostname)
    ensures StandardStays("a;" + attribute, hostname) <==> StandardNamesOnly(attribute, hostname)
  {
    hide Split, Attributes, Unparsed, NamesOnly, StandardNamesOnly;
    var cookie := "a;" + attribute;
    assert cookie == Join(["a", attribute], ";") by { assert ["a", attribute][1..] == [attribute]; }
    SplitOfJoin(["a", attribute], ';');
    AttributesAreSplit(cookie);
    assert Split(cookie, ';')[1..] == [attribute];
  }

  lemma CutAt(name: string, value: string)
    requires '=' !in name
    ensures NamePart(name + "=" + value) == name && ValuePart(name + "=" + value) == value
  {
    hide Until, IndexOf;
    var attribute := name + "=" + value;
    IndexOfAfter(name, '=', value);
    UntilIsIndex(attribute, '=');
  }
}
