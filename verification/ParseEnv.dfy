/** The parser of pasted .env text. */
module ParseEnv {
  import opened Text

  datatype Entry = Entry(key: string, value: string)

  /** What one line comes to. */
  datatype Reading = Ignored | Read(entry: Entry) | Bad(message: string)

  // ---------------------------------------------------------------- one line

  /** UPPER_SNAKE */
  predicate IsKey(key: string) {
    key != "" && IsUpper(key[0]) && forall i :: 0 <= i < |key| ==> IsUpper(key[i]) || IsDigit(key[i]) || key[i] == '_'
  }

  function WithoutExport(line: string): string {
    if StartsWith(line, "export") && |line| > 6 && IsSpace(line[6]) then TrimStart(line[6..]) else line
  }

  predicate QuotedBy(value: string, quote: char) {
    |value| >= 2 && value[0] == quote && value[|value| - 1] == quote
  }

  function Unquoted(value: string): string {
    if QuotedBy(value, '"') || QuotedBy(value, '\'') then value[1..|value| - 1] else value
  }

  /** What is left of a line after its "export". */
  function ReadsAssignment(bare: string, number: nat): Reading {
    if '=' !in bare || IndexOf(bare, '=') == 0 then Bad("line " + Decimal(number) + ": missing '='")
    else
      var e := IndexOf(bare, '=');
      var key := Trim(bare[..e]);
      if IsKey(key) then Read(Entry(key, Unquoted(Trim(bare[e + 1..]))))
      else Bad("line " + Decimal(number) + ": invalid key \"" + key + "\" (must be UPPER_SNAKE)")
  }

  function Reads(line: string, number: nat): Reading {
    var trimmed := Trim(line);
    if trimmed == "" || StartsWith(trimmed, "#") then Ignored else ReadsAssignment(WithoutExport(trimmed), number)
  }

  // ---------------------------------------------------------------- the grammar of an entry

  predicate IsExport(s: string) {
    s == "" || (|s| > 6 && s[..6] == "export" && Blank(s[6..]))
  }

  /** A line of the grammar: blanks, an optional export, a key, an equals sign and a value, each with blanks around. */
  predicate Line(line: string, a: string, export_: string, key: string, b: string, c: string, raw: string, d: string) {
    && line == a + export_ + key + b + "=" + c + raw + d
    && Blank(a) && IsExport(export_) && IsKey(key) && Blank(b) && Blank(c) && Tight(raw) && Blank(d)
  }

  /** Capital letters, digits and underscores, the first a letter. */
  lemma KeyIff(key: string)
    ensures IsKey(key) <==>
      && key != "" && 'A' <= key[0] <= 'Z'
      && forall i :: 0 <= i < |key| ==> 'A' <= key[i] <= 'Z' || '0' <= key[i] <= '9' || key[i] == '_'
  {
  }

  lemma KeyFacts(key: string)
    requires IsKey(key)
    ensures key != "" && Tight(key) && '=' !in key && !IsSpace(key[0]) && key[0] != '#' && key[0] != 'e'
  {
  }

  lemma BlankFacts(s: string)
    requires Blank(s)
    ensures '=' !in s
  {
  }

  lemma LetterIsNotSpace()
    ensures !IsSpace('e')
  {
  }

  lemma ExportOf(export_: string, rest: string)
    requires IsExport(export_) && rest != "" && !IsSpace(rest[0]) && rest[0] != 'e'
    ensures WithoutExport(export_ + rest) == rest
    ensures !IsSpace((export_ + rest)[0]) && (rest[0] != '#' ==> (export_ + rest)[0] != '#')
  {
    hide IsSpace, TrimStart;
    var line := export_ + rest;
    LetterIsNotSpace();
    if export_ == "" {
      assert line == rest;
      assert line[0] != "export"[0];
    } else {
      assert line[..6] == export_[..6] == "export";
      assert line[0] == line[..6][0];
      assert export_[6] == export_[6..][0];
      assert line[6..] == export_[6..] + rest;
      TrimStartOf(export_[6..], rest);
    }
  }

  lemma AssignmentIsRead(key: string, b: string, c: string, raw: string, number: nat)
    requires IsKey(key) && Blank(b) && Blank(c) && Tight(raw)
    ensures ReadsAssignment(key + b + "=" + c + raw, number) == Read(Entry(key, Unquoted(raw)))
  {
    hide IsSpace, IsKey, Trim, Decimal, Unquoted, Tight, Blank, IndexOf;
    KeyFacts(key);
    BlankFacts(b);
    var (left, right) := (key + b, c + raw);
    var bare := key + b + "=" + c + raw;
    assert bare == left + ['='] + right;
    IndexOfAfter(left, '=', right);
    assert bare[..|left|] == left && bare[|left| + 1..] == right;
    NoBlank();
    assert "" + key + b == left && c + raw + "" == right;
    TrimOf("", key, b);
    TrimOf(c, raw, "");
  }

  lemma NoBlank()
    ensures Blank("")
  {
  }

  /** The assignment of a line is what trimming and dropping "export" leave; blanks after an empty value go too. */
  lemma LineIsAssignment(
    line: string, a: string, export_: string, key: string, b: string, c: string, raw: string, d: string)
    requires Line(line, a, export_, key, b, c, raw, d)
    ensures
      var bare := key + b + "=" + (if raw == "" then "" else c) + raw;
      && Trim(line) == export_ + bare && WithoutExport(export_ + bare) == bare
      && export_ + bare != "" && !StartsWith(export_ + bare, "#")
  {
    hide IsSpace, IsKey, Trim, WithoutExport, IsExport, Blank;
    KeyFacts(key);
    NotSpaces();
    var bare := key + b + "=" + (if raw == "" then "" else c) + raw;
    assert bare[0] == key[0] && bare[|bare| - 1] == if raw == "" then '=' else raw[|raw| - 1];
    ExportOf(export_, bare);
    var trimmed := export_ + bare;
    assert trimmed[|trimmed| - 1] == bare[|bare| - 1];
    if raw == "" {
      assert line == a + trimmed + (c + d);
      BlankBoth(c, d);
      TrimOf(a, trimmed, c + d);
    } else {
      assert line == a + trimmed + d;
      TrimOf(a, trimmed, d);
    }
  }

  lemma BlankBoth(c: string, d: string)
    requires Blank(c) && Blank(d)
    ensures Blank(c + d)
  {
  }

  /** A line of the grammar is read as its key and its value without quotes. */
  lemma GrammarIsRead(
    line: string, number: nat, a: string, export_: string, key: string, b: string, c: string, raw: string, d: string)
    requires Line(line, a, export_, key, b, c, raw, d)
    ensures Reads(line, number) == Read(Entry(key, Unquoted(raw)))
  {
    hide Trim, WithoutExport, ReadsAssignment, Unquoted, Blank, IsKey, Tight, IsExport;
    LineIsAssignment(line, a, export_, key, b, c, raw, d);
    NoBlank();
    AssignmentIsRead(key, b, if raw == "" then "" else c, raw, number);
  }

  lemma NotSpaces()
    ensures !IsSpace('=') && !IsSpace('"')
  {
  }

  lemma AssignmentParts(bare: string, number: nat)
    requires ReadsAssignment(bare, number).Read?
    ensures '=' in bare && IndexOf(bare, '=') > 0
    ensures
      var e := IndexOf(bare, '=');
      IsKey(Trim(bare[..e])) && ReadsAssignment(bare, number) == Read(Entry(Trim(bare[..e]), Unquoted(Trim(bare[e + 1..]))))
  {
    hide IsKey, Trim, Decimal, Unquoted, IndexOf;
  }

  lemma OnlyAssignmentIsRead(bare: string, number: nat) returns (key: string, b: string, c: string, raw: string, d: string)
    requires ReadsAssignment(bare, number).Read? && bare != "" && !IsSpace(bare[0])
    ensures bare == key + b + "=" + c + raw + d && IsKey(key) && Blank(b) && Blank(c) && Tight(raw) && Blank(d)
    ensures ReadsAssignment(bare, number) == Read(Entry(key, Unquoted(raw)))
  {
    hide IsSpace, IsKey, Trim, Decimal, Unquoted, IndexOf, Tight, ReadsAssignment;
    AssignmentParts(bare, number);
    var e := IndexOf(bare, '=');
    var blank;
    key := Trim(bare[..e]);
    blank, b := TrimSplits(bare[..e]);
    assert bare[0] == bare[..e][0];
    assert blank == "";
    raw := Trim(bare[e + 1..]);
    c, d := TrimSplits(bare[e + 1..]);
    assert bare == bare[..e] + "=" + bare[e + 1..];
  }

  /** Only lines of the grammar are read as entries. */
  lemma OnlyGrammarIsRead(line: string, number: nat)
    returns (a: string, export_: string, key: string, b: string, c: string, raw: string, d: string)
    requires Reads(line, number).Read?
    ensures Line(line, a, export_, key, b, c, raw, d)
    ensures Reads(line, number) == Read(Entry(key, Unquoted(raw)))
  {
    hide IsSpace, IsKey, Trim, WithoutExport, ReadsAssignment, Unquoted, Tight, Blank, IsExport;
    var after, rest;
    var trimmed := Trim(line);
    a, after := TrimSplits(line);
    export_ := ExportTaken(trimmed);
    NothingToRead(number);
    key, b, c, raw, rest := OnlyAssignmentIsRead(WithoutExport(trimmed), number);
    d := rest + after;
    BlankBoth(rest, after);
  }

  lemma NothingToRead(number: nat)
    ensures ReadsAssignment("", number).Bad?
  {
  }

  lemma ExportTaken(trimmed: string) returns (export_: string)
    requires Tight(trimmed)
    ensures IsExport(export_) && trimmed == export_ + WithoutExport(trimmed)
    ensures WithoutExport(trimmed) == "" || !IsSpace(WithoutExport(trimmed)[0])
  {
    hide IsSpace;
    var bare := WithoutExport(trimmed);
    export_ := trimmed[..|trimmed| - |bare|];
    if StartsWith(trimmed, "export") && |trimmed| > 6 && IsSpace(trimmed[6]) {
      assert export_[6..] == trimmed[6..][..|trimmed[6..]| - |bare|];
    }
  }

  /** A line is read as an entry exactly when the grammar gives it that key and value. */
  lemma EntryIff(line: string, number: nat, entry: Entry)
    ensures Reads(line, number) == Read(entry) <==>
      exists a, export_, b, c, raw, d ::
        Line(line, a, export_, entry.key, b, c, raw, d) && entry.value == Unquoted(raw)
  {
    hide Line, Reads, Unquoted;
    if Reads(line, number) == Read(entry) {
      var a, export_, key, b, c, raw, d := OnlyGrammarIsRead(line, number);
      assert Line(line, a, export_, entry.key, b, c, raw, d);
    }
    if a, export_, b, c, raw, d :| Line(line, a, export_, entry.key, b, c, raw, d) && entry.value == Unquoted(raw) {
      GrammarIsRead(line, number, a, export_, entry.key, b, c, raw, d);
    }
  }

  /** Character i is the first of the line that is no space, and a given one. */
  predicate FirstIs(line: string, i: int, c: char) {
    0 <= i < |line| && line[i] == c && Blank(line[..i])
  }

  /** A line is ignored exactly when it is blank or a comment: its first character that is no space is a '#'. */
  lemma IgnoredIff(line: string, number: nat)
    ensures Reads(line, number).Ignored? <==> Blank(line) || exists i :: FirstIs(line, i, '#')
  {
    hide IsSpace, WithoutExport, ReadsAssignment, FirstIs, Trim;
    var a, d := FirstOfTrimmed(line);
    HashIsNoSpace();
    FirstIsOne(line, '#');
    AssignmentIsNotIgnored(WithoutExport(Trim(line)), number);
    assert StartsWith(Trim(line), "#") <==> Trim(line) != "" && Trim(line)[0] == '#';
  }

  lemma AssignmentIsNotIgnored(bare: string, number: nat)
    ensures !ReadsAssignment(bare, number).Ignored?
  {
    hide IsKey, Trim, Decimal, Unquoted;
  }

  lemma FirstOfTrimmed(line: string) returns (a: string, d: string)
    ensures line == a + Trim(line) + d && Blank(a) && Blank(d)
    ensures Trim(line) == "" <==> Blank(line)
    ensures Trim(line) != "" ==> |a| < |line| && !IsSpace(line[|a|])
  {
    hide IsSpace, Trim;
    a, d := TrimSplits(line);
    if Trim(line) == "" {
      BlankBoth(a, d);
      assert line == a + d;
    } else {
      assert line[|a|] == Trim(line)[0];
    }
  }

  lemma BlankBefore(line: string, i: nat)
    requires i <= |line|
    ensures Blank(line[..i]) <==> forall k :: 0 <= k < i ==> IsSpace(line[k])
  {
    hide IsSpace;
    if Blank(line[..i]) {
      forall k | 0 <= k < i ensures IsSpace(line[k]) { assert line[..i][k] == line[k]; }
    }
  }

  lemma FirstIsOne(line: string, c: char)
    requires !IsSpace(c)
    ensures (exists i :: FirstIs(line, i, c)) <==> Trim(line) != "" && Trim(line)[0] == c
  {
    hide IsSpace, Trim;
    var a, d := FirstOfTrimmed(line);
    assert line[..|a|] == a;
    BlankBefore(line, |a|);
    forall i | 0 <= i <= |line| ensures Blank(line[..i]) <==> forall k :: 0 <= k < i ==> IsSpace(line[k]) { BlankBefore(line, i); }
    if Trim(line) != "" && Trim(line)[0] == c {
      assert line[|a|] == Trim(line)[0];
      assert FirstIs(line, |a|, c);
    }
    hide Blank;
  }

  lemma HashIsNoSpace()
    ensures !IsSpace('#')
  {
  }

  /** A value loses one pair of quotes around it, double or single, and nothing else. */
  lemma UnquotedIff(value: string, result: string)
    ensures Unquoted(value) == result <==>
      || value == ['"'] + result + ['"'] || value == ['\''] + result + ['\'']
      || (value == result && !exists inner :: value == ['"'] + inner + ['"'] || value == ['\''] + inner + ['\''])
  {
    QuotedIff(value, '"');
    QuotedIff(value, '\'');
    if value == ['"'] + result + ['"'] || value == ['\''] + result + ['\''] { assert value[1..|value| - 1] == result; }
  }

  lemma QuotedIff(value: string, quote: char)
    ensures QuotedBy(value, quote) <==> exists inner :: value == [quote] + inner + [quote]
  {
    if QuotedBy(value, quote) { assert value == [quote] + value[1..|value| - 1] + [quote]; }
  }

  /** An equals sign stands after nothing but blanks and an export. */
  predicate StartsWithEquals(line: string, a: string, export_: string, rest: string) {
    line == a + export_ + "=" + rest && Blank(a) && IsExport(export_)
  }

  /** Of the lines that are neither ignored nor entries, those without an equals sign, or with one where the key should be,
      are told that it is missing, and all others that their key is invalid. */
  lemma ErrorIs(line: string, number: nat)
    requires Reads(line, number).Bad?
    ensures
      if '=' !in line || exists a, export_, rest :: StartsWithEquals(line, a, export_, rest)
      then Reads(line, number).message == "line " + Decimal(number) + ": missing '='"
      else exists a, export_, key, b, rest ::
        NamesKey(line, a, export_, key, b, rest) && !IsKey(key)
        && Reads(line, number).message == "line " + Decimal(number) + ": invalid key \"" + key + "\" (must be UPPER_SNAKE)"
  {
    hide IsSpace, IsKey, Trim, WithoutExport, Unquoted, Blank, IsExport, IndexOf, Decimal, StartsWithEquals, NamesKey;
    EqualsKept(line);
    if '=' in line {
      EqualsFirstIff(line);
      if !exists a, export_, rest :: StartsWithEquals(line, a, export_, rest) {
        var a, export_, key, b, rest := KeyNamed(line);
        assert NamesKey(line, a, export_, key, b, rest);
      }
    }
  }

  /** What stands before the first equals sign of a line, less blanks and an export. */
  predicate NamesKey(line: string, a: string, export_: string, key: string, b: string, rest: string) {
    && line == a + export_ + key + b + "=" + rest
    && Blank(a) && IsExport(export_) && key != "" && Tight(key) && '=' !in key && Blank(b)
  }

  lemma KeyNamed(line: string) returns (a: string, export_: string, key: string, b: string, rest: string)
    requires '=' in WithoutExport(Trim(line)) && IndexOf(WithoutExport(Trim(line)), '=') > 0
    ensures NamesKey(line, a, export_, key, b, rest)
    ensures var bare := WithoutExport(Trim(line)); key == Trim(bare[..IndexOf(bare, '=')])
  {
    hide IsSpace, WithoutExport, Trim, IsExport, Blank, Tight, IndexOf;
    var after, x;
    a, after := TrimSplits(line);
    export_ := ExportTaken(Trim(line));
    var bare := WithoutExport(Trim(line));
    var e := IndexOf(bare, '=');
    var before := bare[..e];
    key := Trim(before);
    x, b := TrimSplits(before);
    assert before[0] == bare[0];
    StartsTight(x, key, b);
    rest := bare[e + 1..] + after;
    assert bare == before + "=" + bare[e + 1..];
    assert '=' !in key;
  }

  lemma FirstOfThree(a: string, s: string, d: string)
    requires a + s + d != ""
    ensures a != "" ==> (a + s + d)[0] == a[0]
    ensures a == "" && s == "" ==> d != "" && (a + s + d)[0] == d[0]
  {
  }

  /** A text that starts with no space has no blank in front of what trimming leaves, which is not empty. */
  lemma StartsTight(a: string, s: string, d: string)
    requires Blank(a) && Blank(d) && a + s + d != "" && !IsSpace((a + s + d)[0])
    ensures a == "" && s != ""
  {
    hide IsSpace;
    FirstOfThree(a, s, d);
  }

  lemma EqualsKept(line: string)
    ensures '=' in line <==> '=' in Trim(line)
    ensures '=' in line <==> '=' in WithoutExport(Trim(line))
  {
    hide IsSpace, Trim, WithoutExport;
    var a, d := TrimSplits(line);
    BlankFacts(a);
    BlankFacts(d);
    var export_ := ExportTaken(Trim(line));
    ExportFacts(export_);
  }

  lemma ExportFacts(export_: string)
    requires IsExport(export_)
    ensures '=' !in export_
  {
    if export_ != "" {
      BlankFacts(export_[6..]);
      assert export_ == "export" + export_[6..];
    }
  }

  lemma EqualsFirst(line: string, a: string, export_: string, rest: string)
    requires StartsWithEquals(line, a, export_, rest)
    ensures '=' in WithoutExport(Trim(line)) && IndexOf(WithoutExport(Trim(line)), '=') == 0
  {
    hide IsSpace, IsExport, WithoutExport, Blank, Trim, TrimStart, TrimEnd;
    NotSpaces();
    var bare := "=" + TrimEnd(rest);
    var d := rest[|TrimEnd(rest)|..];
    TrimEndBlank(rest);
    ExportOf(export_, bare);
    var trimmed := export_ + bare;
    assert trimmed[|trimmed| - 1] == bare[|bare| - 1];
    assert line == a + trimmed + d;
    TrimOf(a, trimmed, d);
    IndexOfAfter("", '=', TrimEnd(rest));
    assert "" + ['='] + TrimEnd(rest) == bare;
  }

  lemma TrimEndBlank(s: string)
    ensures Blank(s[|TrimEnd(s)|..]) && s == TrimEnd(s) + s[|TrimEnd(s)|..]
    ensures TrimEnd(s) != "" ==> !IsSpace(TrimEnd(s)[|TrimEnd(s)| - 1])
  {
    hide IsSpace;
    var n := |TrimEnd(s)|;
    forall i | 0 <= i < |s[n..]| ensures IsSpace(s[n..][i]) { assert s[n..][i] == s[n + i]; }
  }

  lemma EqualsFirstIff(line: string)
    requires '=' in line
    ensures '=' in WithoutExport(Trim(line))
    ensures IndexOf(WithoutExport(Trim(line)), '=') == 0 <==> exists a, export_, rest :: StartsWithEquals(line, a, export_, rest)
  {
    hide IsSpace, IsExport, WithoutExport, Blank, Trim;
    EqualsKept(line);
    var bare := WithoutExport(Trim(line));
    if bare[0] == '=' {
      var a, d := TrimSplits(line);
      var export_ := ExportTaken(Trim(line));
      assert bare == "=" + bare[1..];
      assert line == a + export_ + "=" + (bare[1..] + d);
      assert StartsWithEquals(line, a, export_, bare[1..] + d);
    }
    hide StartsWithEquals;
    if a, export_, rest :| StartsWithEquals(line, a, export_, rest) { EqualsFirst(line, a, export_, rest); }
  }

  // ---------------------------------------------------------------- the whole text

  function WithoutReturn(line: string): string {
    if EndsWith(line, "\r") then line[..|line| - 1] else line
  }

  /** The text between line ends, each "\n" or "\r\n". */
  function Lines(text: string): (lines: seq<string>)
    ensures lines != []
  {
    var parts := Split(text, '\n');
    seq(|parts|, i requires 0 <= i < |parts| => if i < |parts| - 1 then WithoutReturn(parts[i]) else parts[i])
  }

  /** The lines with what ends them: some "\r\n", some "\n", and the last with nothing. */
  function Ended(lines: seq<string>, returned: seq<bool>): (ended: seq<string>)
    requires |returned| == |lines|
    ensures |ended| == |lines| && forall i :: 0 <= i < |lines| ==> ended[i] == lines[i] + if returned[i] then "\r" else ""
  {
    seq(|lines|, i requires 0 <= i < |lines| => lines[i] + if returned[i] then "\r" else "")
  }

  /** Lines that hold no line feed, and but for the last do not end in a carriage return, are found again whichever of the
      two ends each. */
  lemma LinesAreFound(lines: seq<string>, returned: seq<bool>)
    requires lines != [] && |returned| == |lines| && !returned[|lines| - 1]
    requires forall i :: 0 <= i < |lines| ==> '\n' !in lines[i]
    requires forall i :: 0 <= i < |lines| - 1 ==> lines[i] == "" || lines[i][|lines[i]| - 1] != '\r'
    ensures Lines(Join(Ended(lines, returned), "\n")) == lines
  {
    hide Lines, Join, Split, WithoutReturn;
    var ended := Ended(lines, returned);
    forall i | 0 <= i < |lines| ensures '\n' !in ended[i] { EndHasNoFeed(lines[i], returned[i]); }
    SplitOfJoin(ended, '\n');
    LinesOf(Join(ended, "\n"), ended);
    forall i | 0 <= i < |lines| - 1 ensures WithoutReturn(ended[i]) == lines[i] { ReturnTaken(lines[i], returned[i]); }
    assert ended[|lines| - 1] == lines[|lines| - 1];
  }

  lemma LinesOf(text: string, parts: seq<string>)
    requires Split(text, '\n') == parts
    ensures |Lines(text)| == |parts| && parts != []
    ensures forall i :: 0 <= i < |parts| ==> Lines(text)[i] == if i < |parts| - 1 then WithoutReturn(parts[i]) else parts[i]
  {
    hide WithoutReturn, Split;
  }

  lemma EndHasNoFeed(line: string, returned: bool)
    requires '\n' !in line
    ensures '\n' !in line + if returned then "\r" else ""
  {
  }

  lemma ReturnTaken(line: string, returned: bool)
    requires line == "" || line[|line| - 1] != '\r'
    ensures WithoutReturn(line + if returned then "\r" else "") == line
  {
    assert (line + "\r")[|line|..] == "\r";
    if line != "" { assert line[|line| - 1..][0] == line[|line| - 1]; }
    assert line + "" == line;
  }

  function Readings(lines: seq<string>): (readings: seq<Reading>)
    ensures |readings| == |lines|
  {
    if lines == [] then [] else Readings(lines[..|lines| - 1]) + [Reads(lines[|lines| - 1], |lines|)]
  }

  /** Lines are counted from one. */
  lemma {:induction false} ReadingAt(lines: seq<string>, i: nat)
    requires i < |lines|
    ensures Readings(lines)[i] == Reads(lines[i], i + 1)
    decreases |lines|
  {
    hide Reads;
    if i < |lines| - 1 { ReadingAt(lines[..|lines| - 1], i); }
  }

  function EntriesOf(readings: seq<Reading>): seq<Entry> {
    if readings == [] then []
    else EntriesOf(readings[..|readings| - 1]) + var last := readings[|readings| - 1]; if last.Read? then [last.entry] else []
  }

  function ErrorsOf(readings: seq<Reading>): seq<string> {
    if readings == [] then []
    else ErrorsOf(readings[..|readings| - 1]) + var last := readings[|readings| - 1]; if last.Bad? then [last.message] else []
  }

  function IgnoredIn(readings: seq<Reading>): nat {
    if readings == [] then 0
    else IgnoredIn(readings[..|readings| - 1]) + if readings[|readings| - 1].Ignored? then 1 else 0
  }

  /** parseEnv: one pass over the lines. */
  method ParseEnv(text: string) returns (entries: seq<Entry>, errors: seq<string>)
    ensures entries == EntriesOf(Readings(Lines(text))) && errors == ErrorsOf(Readings(Lines(text)))
  {
    hide Trim, WithoutExport, IsKey, QuotedBy, Decimal, IndexOf;
    var lines := Lines(text);
    hide Lines;
    ghost var readings := Readings(lines);
    entries, errors := [], [];
    var i := 0;
    while i < |lines|
      invariant 0 <= i <= |lines|
      invariant entries == EntriesOf(readings[..i]) && errors == ErrorsOf(readings[..i])
    {
      assert readings[..i + 1] == readings[..i] + [readings[i]];
      ReadingAt(lines, i);
      var line := Trim(lines[i]);
      i := i + 1;
      if line == "" || StartsWith(line, "#") { continue; }
      var bare := WithoutExport(line);
      if '=' !in bare || IndexOf(bare, '=') == 0 {
        errors := errors + ["line " + Decimal(i) + ": missing '='"];
        continue;
      }
      var e := IndexOf(bare, '=');
      var key := Trim(bare[..e]);
      var value := Trim(bare[e + 1..]);
      if QuotedBy(value, '"') || QuotedBy(value, '\'') {
        QuotesFit(value);
        value := value[1..|value| - 1];
      }
      if !IsKey(key) {
        errors := errors + ["line " + Decimal(i) + ": invalid key \"" + key + "\" (must be UPPER_SNAKE)"];
        continue;
      }
      entries := entries + [Entry(key, value)];
    }
    assert readings[..i] == readings;
  }

  lemma QuotesFit(value: string)
    requires QuotedBy(value, '"') || QuotedBy(value, '\'')
    ensures |value| >= 2
  {
  }

  /** Every line counts once, and what it yields stands after what the lines before it yield. */
  lemma {:induction false} LineOrder(readings: seq<Reading>, i: nat)
    requires i < |readings|
    ensures |EntriesOf(readings)| + |ErrorsOf(readings)| + IgnoredIn(readings) == |readings|
    ensures EntriesOf(readings[..i]) <= EntriesOf(readings) && ErrorsOf(readings[..i]) <= ErrorsOf(readings)
    ensures readings[i].Read? ==>
      |EntriesOf(readings[..i])| < |EntriesOf(readings)| && EntriesOf(readings)[|EntriesOf(readings[..i])|] == readings[i].entry
    ensures readings[i].Bad? ==>
      |ErrorsOf(readings[..i])| < |ErrorsOf(readings)| && ErrorsOf(readings)[|ErrorsOf(readings[..i])|] == readings[i].message
    decreases |readings|
  {
    var rest := readings[..|readings| - 1];
    if rest == [] {
      assert readings[..0] == [];
    } else if i < |rest| {
      LineOrder(rest, i);
      assert readings[..i] == rest[..i];
    } else {
      LineOrder(rest, 0);
      assert readings[..i] == rest;
    }
  }

  // ---------------------------------------------------------------- round trip

  function PrintedLine(entry: Entry): string {
    entry.key + "=\"" + entry.value + "\""
  }

  function PrintedLines(entries: seq<Entry>): (lines: seq<string>)
    ensures |lines| == |entries| && forall i :: 0 <= i < |lines| ==> lines[i] == PrintedLine(entries[i])
  {
    seq(|entries|, i requires 0 <= i < |entries| => PrintedLine(entries[i]))
  }

  predicate Printable(entry: Entry) {
    IsKey(entry.key) && '\n' !in entry.value
  }

  lemma PrintedLineIsRead(entry: Entry, number: nat)
    requires Printable(entry)
    ensures Reads(PrintedLine(entry), number) == Read(entry)
    ensures '\n' !in PrintedLine(entry) && PrintedLine(entry) != "" && PrintedLine(entry)[|PrintedLine(entry)| - 1] == '"'
  {
    hide IsSpace, Reads;
    var (key, raw) := (entry.key, "\"" + entry.value + "\"");
    NotSpaces();
    NoBlank();
    assert PrintedLine(entry) == "" + "" + key + "" + "=" + "" + raw + "";
    assert raw[1..|raw| - 1] == entry.value;
    GrammarIsRead(PrintedLine(entry), number, "", "", key, "", "", raw, "");
  }

  /** Whatever values are printed between quotes, one entry to a line, are parsed back without an error. */
  lemma ParseInvertsPrint(entries: seq<Entry>)
    requires forall i :: 0 <= i < |entries| ==> Printable(entries[i])
    ensures
      var readings := Readings(Lines(Join(PrintedLines(entries), "\n")));
      EntriesOf(readings) == entries && ErrorsOf(readings) == []
  {
    hide Lines, Reads, Printable, Join, PrintedLine;
    var lines := PrintedLines(entries);
    if entries == [] {
      EmptyText();
    } else {
      PrintedLinesAreFound(entries);
      forall i | 0 <= i < |lines| ensures Readings(lines)[i] == Read(entries[i]) {
        ReadingAt(lines, i);
        PrintedLineIsRead(entries[i], i + 1);
      }
      AllRead(Readings(lines), entries);
    }
  }

  lemma EmptyText()
    ensures EntriesOf(Readings(Lines(Join(PrintedLines([]), "\n")))) == [] && ErrorsOf(Readings(Lines(Join(PrintedLines([]), "\n")))) == []
  {
    hide Reads;
    assert Join(PrintedLines([]), "\n") == "" && Lines("") == [""];
    assert Reads("", 1) == Ignored by { NothingIsIgnored(); }
    assert [""][..0] == [] && Readings([""]) == [Ignored];
  }

  lemma PrintedLinesAreFound(entries: seq<Entry>)
    requires entries != [] && forall i :: 0 <= i < |entries| ==> Printable(entries[i])
    ensures Lines(Join(PrintedLines(entries), "\n")) == PrintedLines(entries)
  {
    hide Lines, Join, Printable, PrintedLine, Reads;
    var lines := PrintedLines(entries);
    var returned := seq(|lines|, i => false);
    forall i | 0 <= i < |entries|
      ensures '\n' !in lines[i] && lines[i] != "" && lines[i][|lines[i]| - 1] == '"'
    {
      PrintedLineIsRead(entries[i], i + 1);
    }
    LinesAreFound(lines, returned);
    forall i | 0 <= i < |lines| ensures Ended(lines, returned)[i] == lines[i] { assert !returned[i] && lines[i] + "" == lines[i]; }
    assert Ended(lines, returned) == lines;
  }

  lemma NothingIsIgnored()
    ensures Reads("", 1) == Ignored
  {
  }

  lemma {:induction false} AllRead(readings: seq<Reading>, entries: seq<Entry>)
    requires |readings| == |entries| && forall i :: 0 <= i < |entries| ==> readings[i] == Read(entries[i])
    ensures EntriesOf(readings) == entries && ErrorsOf(readings) == []
    decreases |entries|
  {
    if entries != [] {
      var n := |entries| - 1;
      AllRead(readings[..n], entries[..n]);
      assert entries == entries[..n] + [entries[n]];
    }
  }
}
