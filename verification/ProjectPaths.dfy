/** The API paths a site's server code may call: its own project's, spelled plainly. */
module ProjectPaths {
  import opened Text

  // ---------------------------------------------------------------- ownProjectPath

  predicate IsPathChar(c: char) {
    'A' <= c <= 'Z' || 'a' <= c <= 'z' || IsDigit(c) || c == '_' || c == '~' || c == '-'
  }

  /** A segment no proxy reads as anything else: never empty, never starting with a dot. */
  predicate Plain(segment: string) {
    segment != "" && IsPathChar(segment[0]) && forall i :: 1 <= i < |segment| ==> IsPathChar(segment[i]) || segment[i] == '.'
  }

  predicate AllPlain(segments: seq<string>) {
    forall i :: 0 <= i < |segments| ==> Plain(segments[i])
  }

  /** What "." in a regular expression does not match. */
  predicate IsLineTerminator(c: char) {
    c == '\n' || c == '\r' || c == '\U{2028}' || c == '\U{2029}'
  }

  function WithoutTrailingSlash(path: string): string {
    if |path| >= 2 && path[|path| - 1] == '/' && !IsLineTerminator(path[|path| - 2]) then path[..|path| - 1] else path
  }

  /** The project routes of the ingress. */
  predicate Routed(segments: seq<string>, project: string) {
    if |segments| == 0 then false
    else if segments[0] == project then |segments| > 1 && (segments[1] == "graphql" || segments[1] == "api")
    else if segments[0] == "auth" then |segments| > 1 && segments[1] == project
    else if (segments[0] == "functions" || segments[0] == "storage") && |segments| > 1 && segments[1] == "v1" then
      |segments| > 2 && segments[2] == project
    else false
  }

  /** ownProjectPath */
  predicate OwnPath(path: string, project: string) {
    var segments := Split(WithoutTrailingSlash(path), '/')[1..];
    AllPlain(segments) && Routed(segments, project)
  }

  // ---------------------------------------------------------------- what is accepted

  function Path(segments: seq<string>, slash: bool): string {
    "/" + Join(segments, "/") + if slash then "/" else ""
  }

  lemma PlainLacks(segment: string)
    requires Plain(segment)
    ensures segment != "" && segment[0] != '.' && '/' !in segment
    ensures forall i :: 0 <= i < |segment| ==> !IsLineTerminator(segment[i])
  {
  }

  /** Joined plain segments neither start nor end with a slash and hold no line terminator. */
  lemma {:induction false} JoinedPlain(segments: seq<string>)
    requires AllPlain(segments) && segments != []
    ensures
      var s := Join(segments, "/");
      s != "" && s[0] != '/' && s[|s| - 1] != '/' && forall i :: 0 <= i < |s| ==> !IsLineTerminator(s[i])
    decreases |segments|
  {
    PlainLacks(segments[0]);
    hide Plain;
    if |segments| > 1 { JoinedPlain(segments[1..]); }
  }

  lemma SplitOfPath(segments: seq<string>, slash: bool)
    requires AllPlain(segments) && segments != []
    ensures Split(WithoutTrailingSlash(Path(segments, slash)), '/')[1..] == segments
  {
    hide Plain, IsLineTerminator, Join, Split;
    var path := Path(segments, slash);
    JoinedPlain(segments);
    forall i | 0 <= i < |segments| ensures '/' !in segments[i] { PlainLacks(segments[i]); }
    SplitOfJoin([""] + segments, '/');
    JoinAfterEmpty(segments);
    var body := "/" + Join(segments, "/");
    assert body[|body| - 1] == Join(segments, "/")[|body| - 2];
    if slash {
      assert path == body + "/" && path[..|path| - 1] == body;
    } else {
      assert path == body;
    }
  }

  lemma JoinAfterEmpty(segments: seq<string>)
    requires segments != []
    ensures Join([""] + segments, "/") == "/" + Join(segments, "/")
  {
    assert ([""] + segments)[1..] == segments;
  }

  /** The routes of a project, segment by segment: its own id first, or after a service's prefix - but for a project that
      has a service's name, whose routes all start with its id. */
  lemma RoutedIff(segments: seq<string>, project: string)
    ensures Routed(segments, project) <==>
      || [project, "graphql"] <= segments
      || [project, "api"] <= segments
      || (project != "auth" && ["auth", project] <= segments)
      || (project != "functions" && ["functions", "v1", project] <= segments)
      || (project != "storage" && ["storage", "v1", project] <= segments)
  {
    hide Routed;
    StartsTwo(segments, project, "graphql");
    StartsTwo(segments, project, "api");
    StartsTwo(segments, "auth", project);
    StartsThree(segments, "functions", "v1", project);
    StartsThree(segments, "storage", "v1", project);
    RoutedBySegments(segments, project, "graphql", "api", "auth", "functions", "storage", "v1");
  }

  lemma StartsTwo(segments: seq<string>, first: string, second: string)
    ensures [first, second] <= segments <==> |segments| > 1 && segments[0] == first && segments[1] == second
  {
  }

  lemma StartsThree(segments: seq<string>, first: string, second: string, third: string)
    ensures [first, second, third] <= segments <==> |segments| > 2 && segments[0] == first && segments[1] == second && segments[2] == third
  {
  }

  lemma RoutedBySegments(
    s: seq<string>, project: string, graphql: string, api: string, auth: string, functions: string, storage: string, v1: string)
    requires graphql == "graphql" && api == "api" && auth == "auth" && functions == "functions" && storage == "storage" && v1 == "v1"
    ensures Routed(s, project) <==>
      || (|s| > 1 && s[0] == project && (s[1] == graphql || s[1] == api))
      || (project != auth && |s| > 1 && s[0] == auth && s[1] == project)
      || (project != functions && |s| > 2 && s[0] == functions && s[1] == v1 && s[2] == project)
      || (project != storage && |s| > 2 && s[0] == storage && s[1] == v1 && s[2] == project)
  {
  }

  /** The unreserved characters of section 2.3 of RFC 3986. */
  predicate IsUnreserved(c: char) {
    'A' <= c <= 'Z' || 'a' <= c <= 'z' || '0' <= c <= '9' || c in {'-', '.', '_', '~'}
  }

  /** A segment is plain exactly when it has only unreserved characters, at least one, and starts with no dot. */
  lemma PlainIff(segment: string)
    ensures Plain(segment) <==> segment != "" && segment[0] != '.' && forall i :: 0 <= i < |segment| ==> IsUnreserved(segment[i])
  {
    if Plain(segment) {
      forall i | 0 <= i < |segment| ensures IsUnreserved(segment[i]) {
        if i > 0 { assert IsPathChar(segment[i]) || segment[i] == '.'; }
      }
    }
    if segment != "" && segment[0] != '.' && forall i :: 0 <= i < |segment| ==> IsUnreserved(segment[i]) {
      forall i | 0 <= i < |segment| ensures IsPathChar(segment[i]) || segment[i] == '.' { assert IsUnreserved(segment[i]); }
    }
  }

  /** A path that starts with a slash is accepted exactly when it is a project route of plain segments, with at
      most one slash after the last. */
  lemma OwnPathIff(path: string, project: string)
    requires StartsWith(path, "/")
    ensures OwnPath(path, project) <==>
      exists segments, slash :: AllPlain(segments) && Routed(segments, project) && path == Path(segments, slash)
  {
    if OwnPath(path, project) { AcceptedForm(path, project); }
    if segments, slash :| AllPlain(segments) && Routed(segments, project) && path == Path(segments, slash) {
      SplitOfPath(segments, slash);
    }
  }

  lemma AcceptedForm(path: string, project: string)
    requires StartsWith(path, "/") && OwnPath(path, project)
    ensures
      var segments := Split(WithoutTrailingSlash(path), '/')[1..];
      segments != [] && AllPlain(segments) && Routed(segments, project) && path == Path(segments, WithoutTrailingSlash(path) != path)
  {
    hide Plain, IsLineTerminator, Join;
    var stripped := WithoutTrailingSlash(path);
    var parts := Split(stripped, '/');
    assert stripped[0] == '/';
    JoinOfSplit(stripped, '/');
    assert parts == [""] + parts[1..];
    JoinAfterEmpty(parts[1..]);
  }

  /** A path whose last segment is not plain is refused. */
  lemma LastMustBePlain(path: string, project: string)
    requires var parts := Split(WithoutTrailingSlash(path), '/'); !Plain(parts[|parts| - 1])
    ensures !OwnPath(path, project)
  {
    hide Plain, WithoutTrailingSlash, Split;
    var parts := Split(WithoutTrailingSlash(path), '/');
    NothingRouted(project);
    if |parts| > 1 { assert parts[1..][|parts| - 2] == parts[|parts| - 1]; }
  }

  lemma EmptyLastIsRefused(path: string, project: string)
    requires var stripped := WithoutTrailingSlash(path); stripped != "" && stripped[|stripped| - 1] == '/'
    ensures !OwnPath(path, project)
  {
    LastIsEmpty(WithoutTrailingSlash(path));
    LastMustBePlain(path, project);
  }

  lemma TerminatorIsRefused(path: string, project: string)
    requires path != "" && IsLineTerminator(path[|path| - 1])
    ensures !OwnPath(path, project)
  {
    hide Plain, OwnPath, Split;
    assert path == WithoutTrailingSlash(path);
    hide IsLineTerminator, WithoutTrailingSlash;
    var last := Split(path, '/')[|Split(path, '/')| - 1];
    LastPart(path, path[|path| - 1]);
    if Plain(last) { PlainLacks(last); }
    LastMustBePlain(path, project);
  }

  lemma NoSegmentIsRefused(project: string)
    ensures !OwnPath("", project)
  {
    assert Split("", '/')[1..] == [];
  }

  lemma SameStripped(one: string, other: string, project: string)
    requires WithoutTrailingSlash(one) == WithoutTrailingSlash(other)
    ensures OwnPath(one, project) == OwnPath(other, project)
  {
  }

  lemma NothingRouted(project: string)
    ensures !Routed([], project)
  {
  }

  lemma {:induction false} LastIsEmpty(s: string)
    requires s != "" && s[|s| - 1] == '/'
    ensures |Split(s, '/')| >= 2 && Split(s, '/')[|Split(s, '/')| - 1] == ""
    decreases |s|
  {
    hide Split, IndexOf;
    var rest := s[IndexOf(s, '/') + 1..];
    SplitUnfolds(s, '/');
    if rest == "" {
      SplitOfNothing('/');
    } else {
      assert rest[|rest| - 1] == s[|s| - 1];
      LastIsEmpty(rest);
    }
  }

  lemma SplitUnfolds(s: string, c: char)
    requires c in s
    ensures Split(s, c) == [s[..IndexOf(s, c)]] + Split(s[IndexOf(s, c) + 1..], c)
  {
    hide IndexOf;
  }

  lemma SplitOfNothing(c: char)
    ensures Split("", c) == [""]
  {
  }

  /** A last character other than a slash is in the last segment. */
  lemma {:induction false} LastPart(s: string, c: char)
    requires s != "" && s[|s| - 1] == c != '/'
    ensures c in Split(s, '/')[|Split(s, '/')| - 1]
    decreases |s|
  {
    if '/' in s { LastPart(s[IndexOf(s, '/') + 1..], c); }
  }

  /** One more slash is accepted exactly where there was none: a second trailing slash never is. */
  lemma OneTrailingSlash(path: string, project: string)
    ensures OwnPath(path + "/", project) <==> OwnPath(path, project) && !EndsWith(path, "/")
  {
    hide OwnPath;
    var longer := path + "/";
    assert longer[..|longer| - 1] == path;
    if path == "" {
      assert longer == "/";
      EmptyLastIsRefused(longer, project);
      NoSegmentIsRefused(project);
    } else if path[|path| - 1] == '/' {
      EmptyLastIsRefused(longer, project);
    } else if IsLineTerminator(path[|path| - 1]) {
      EmptyLastIsRefused(longer, project);
      TerminatorIsRefused(path, project);
    } else {
      SameStripped(longer, path, project);
    }
  }

  // ---------------------------------------------------------------- no proxy reads it otherwise

  function CutLastSegment(output: string): string {
    if output == "" then "" else if output[|output| - 1] == '/' then output[..|output| - 1] else CutLastSegment(output[..|output| - 1])
  }

  /** The length of the first path segment, with its slash if any. */
  function FirstSegment(input: string): (n: nat)
    requires input != ""
    ensures 1 <= n <= |input|
    ensures forall i :: 1 <= i < n ==> input[i] != '/'
    ensures n < |input| ==> input[n] == '/'
  {
    if '/' in input[1..] then 1 + IndexOf(input[1..], '/') else |input|
  }

  /** remove_dot_segments, section 5.2.4 of RFC 3986. */
  function RemoveDotSegments(input: string, output: string): string
    decreases |input|
  {
    if input == "" then output
    else if StartsWith(input, "../") then RemoveDotSegments(input[3..], output)
    else if StartsWith(input, "./") then RemoveDotSegments(input[2..], output)
    else if StartsWith(input, "/./") then RemoveDotSegments(input[2..], output)
    else if input == "/." then RemoveDotSegments("/", output)
    else if StartsWith(input, "/../") then RemoveDotSegments(input[3..], CutLastSegment(output))
    else if input == "/.." then RemoveDotSegments("/", CutLastSegment(output))
    else if input == "." || input == ".." then output
    else RemoveDotSegments(input[FirstSegment(input)..], output + input[..FirstSegment(input)])
  }

  /** The rest of an accepted path: some segments, each after its slash. */
  function Tail(segments: seq<string>, slash: bool): string {
    if segments == [] then (if slash then "/" else "") else "/" + segments[0] + Tail(segments[1..], slash)
  }

  lemma {:induction false} PathIsTail(segments: seq<string>, slash: bool)
    requires segments != []
    ensures Path(segments, slash) == Tail(segments, slash)
    decreases |segments|
  {
    if |segments| > 1 {
      PathIsTail(segments[1..], slash);
      assert Path(segments, slash) == "/" + segments[0] + Path(segments[1..], slash);
    }
  }

  lemma SegmentEnds(input: string, n: nat)
    requires 1 <= n <= |input| && (forall i :: 1 <= i < n ==> input[i] != '/') && (n < |input| ==> input[n] == '/')
    ensures FirstSegment(input) == n
  {
  }

  /** A segment that does not start with a dot is moved over whole. */
  lemma MovesSegment(input: string, n: nat, output: string)
    requires 2 <= n <= |input| && input[0] == '/' && input[1] != '.'
    requires (forall i :: 1 <= i < n ==> input[i] != '/') && (n < |input| ==> input[n] == '/')
    ensures RemoveDotSegments(input, output) == RemoveDotSegments(input[n..], output + input[..n])
  {
    SegmentEnds(input, n);
  }

  lemma {:induction false} NothingToRemove(segments: seq<string>, slash: bool, output: string)
    requires AllPlain(segments)
    ensures RemoveDotSegments(Tail(segments, slash), output) == output + Tail(segments, slash)
    decreases |segments|
  {
    hide RemoveDotSegments, Plain;
    if segments == [] {
      EndOfPath(output);
    } else {
      var (input, rest, n) := (Tail(segments, slash), Tail(segments[1..], slash), 1 + |segments[0]|);
      PlainLacks(segments[0]);
      assert input == "/" + segments[0] + rest;
      assert forall i :: 1 <= i < n ==> input[i] == segments[0][i - 1];
      assert rest != "" ==> rest[0] == '/' && input[n] == '/';
      assert input[..n] == "/" + segments[0] && input[n..] == rest;
      MovesSegment(input, n, output);
      NothingToRemove(segments[1..], slash, output + input[..n]);
      assert output + input[..n] + rest == output + input;
    }
  }

  lemma EndOfPath(output: string)
    ensures RemoveDotSegments("", output) == output && RemoveDotSegments("/", output) == output + "/"
  {
    assert FirstSegment("/") == 1 && "/"[1..] == "" && "/"[..1] == "/";
  }

  /** No two slashes in a row, anywhere. */
  lemma {:induction false} NoEmptySegment(segments: seq<string>, slash: bool)
    requires AllPlain(segments)
    ensures forall i :: 0 <= i < |Tail(segments, slash)| - 1 ==> !(Tail(segments, slash)[i] == '/' && Tail(segments, slash)[i + 1] == '/')
    decreases |segments|
  {
    if segments != [] {
      PlainLacks(segments[0]);
      NoEmptySegment(segments[1..], slash);
      var (input, rest, n) := (Tail(segments, slash), Tail(segments[1..], slash), 1 + |segments[0]|);
      assert input == "/" + segments[0] + rest;
      forall i | 0 <= i < |input| - 1 ensures !(input[i] == '/' && input[i + 1] == '/') {
        if i < n - 1 {
          assert input[i + 1] == segments[0][i];
        } else if i == n - 1 {
          assert input[i] == segments[0][i - 1];
        } else {
          assert input[i] == rest[i - n] && input[i + 1] == rest[i - n + 1];
        }
      }
    }
  }

  /** An accepted path means the same to everything that normalises it: dot removal leaves it alone, and no
      slash follows another. */
  lemma AcceptedPathsAreNormal(path: string, project: string)
    requires StartsWith(path, "/") && OwnPath(path, project)
    ensures RemoveDotSegments(path, "") == path
    ensures forall i :: 0 <= i < |path| - 1 ==> !(path[i] == '/' && path[i + 1] == '/')
  {
    AcceptedForm(path, project);
    var segments := Split(WithoutTrailingSlash(path), '/')[1..];
    var slash := WithoutTrailingSlash(path) != path;
    PathIsTail(segments, slash);
    NothingToRemove(segments, slash, "");
    NoEmptySegment(segments, slash);
  }

  // ---------------------------------------------------------------- one owner

  /** The ids whose own route looks like another project's auth route. */
  predicate Clash(a: string, b: string) {
    a == "auth" && (b == "graphql" || b == "api")
  }

  /** A path belongs to one project, unless one is called "auth" and the other after one of its routes. */
  lemma OneOwner(path: string, a: string, b: string)
    requires OwnPath(path, a) && OwnPath(path, b)
    ensures a == b || Clash(a, b) || Clash(b, a)
  {
    hide AllPlain, WithoutTrailingSlash, Split;
  }

  /** Where ids clash there is a path both own. */
  lemma ClashIsReal(a: string, b: string)
    requires Clash(a, b)
    ensures OwnPath("/auth/" + b, a) && OwnPath("/auth/" + b, b)
  {
    var segments := ["auth", b];
    assert Plain("auth") && Plain(b);
    SplitOfPath(segments, false);
    assert Join(segments, "/") == "auth" + "/" + b by { assert segments[1..] == [b]; }
    assert Path(segments, false) == "/auth/" + b;
    assert WithoutTrailingSlash("/auth/" + b) == "/auth/" + b;
  }

  /** Two projects can be told apart by path alone exactly when their ids do not clash. */
  lemma OwnersAreSeparateIff(a: string, b: string)
    requires a != b
    ensures (forall path :: !(OwnPath(path, a) && OwnPath(path, b))) <==> !Clash(a, b) && !Clash(b, a)
  {
    hide OwnPath, Clash;
    if Clash(a, b) { ClashIsReal(a, b); }
    if Clash(b, a) { ClashIsReal(b, a); }
    forall path | OwnPath(path, a) && OwnPath(path, b) ensures Clash(a, b) || Clash(b, a) { OneOwner(path, a, b); }
  }
}
