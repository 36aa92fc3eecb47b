/** Environment variables as text: printing rows, parsing them back with diagnostics, importing them. */
module EnvBlock {
  import opened Text

  datatype Row = Row(key: string, value: string)

  datatype Code = MissingEquals | InvalidKey | DuplicateKey(key: string)

  datatype Issue = Issue(line: nat, code: Code)

  datatype ParseResult = ParseResult(rows: seq<Row>, issues: seq<Issue>)

  /** What becomes of one line. */
  datatype Verdict = Skipped | Accepted(row: Row) | Rejected(issue: Issue)

  predicate IsKeyChar(c: char) {
    IsAlpha(c) || IsDigit(c) || c == '_'
  }

  predicate IsEnvKey(s: string) {
    s != "" && !IsDigit(s[0]) && forall c :: c in s ==> IsKeyChar(c)
  }

  // ----- Printing

  function Lines(rows: seq<Row>): seq<string> {
    if rows == [] then []
    else (if Trim(rows[0].key) == "" then [] else [Trim(rows[0].key) + "=" + rows[0].value]) + Lines(rows[1..])
  }

  function FormatEnvBlock(rows: seq<Row>): string {
    Join(Lines(rows), "\n")
  }

  // ----- Parsing

  function DropReturn(line: string): string {
    if EndsWith(line, "\r") then line[..|line| - 1] else line
  }

  /** The lines of a text; a carriage return before a line feed belongs to the break. */
  function SourceLines(pieces: seq<string>): (r: seq<string>)
    ensures |r| == |pieces|
  {
    if |pieces| <= 1 then pieces else [DropReturn(pieces[0])] + SourceLines(pieces[1..])
  }

  function DropExport(line: string): string {
    if StartsWith(line, "export ") then TrimStart(line[7..]) else line
  }

  function Judge(sourceLine: string, number: nat, seen: set<string>): Verdict {
    var trimmed := Trim(sourceLine);
    if trimmed == "" || trimmed[0] == '#' then Skipped
    else
      var line := DropExport(trimmed);
      var eq := Find(line, '=');
      if eq == |line| then Rejected(Issue(number, MissingEquals))
      else
        var key := Trim(line[..eq]);
        if !IsEnvKey(key) then Rejected(Issue(number, InvalidKey))
        else if key in seen then Rejected(Issue(number, DuplicateKey(key)))
        else Accepted(Row(key, line[eq + 1..]))
  }

  function Learn(seen: set<string>, verdict: Verdict): set<string> {
    if verdict.Accepted? then seen + {verdict.row.key} else seen
  }

  /** The verdicts on the lines from the given number on. */
  function Verdicts(lines: seq<string>, number: nat, seen: set<string>): (r: seq<Verdict>)
    ensures |r| == |lines|
    decreases |lines|
  {
    if lines == [] then []
    else
      var verdict := Judge(lines[0], number, seen);
      [verdict] + Verdicts(lines[1..], number + 1, Learn(seen, verdict))
  }

  function RowsOf(verdicts: seq<Verdict>): seq<Row> {
    if verdicts == [] then []
    else (if verdicts[0].Accepted? then [verdicts[0].row] else []) + RowsOf(verdicts[1..])
  }

  function IssuesOf(verdicts: seq<Verdict>): seq<Issue> {
    if verdicts == [] then []
    else (if verdicts[0].Rejected? then [verdicts[0].issue] else []) + IssuesOf(verdicts[1..])
  }

  function Collect(verdicts: seq<Verdict>): ParseResult {
    ParseResult(RowsOf(verdicts), IssuesOf(verdicts))
  }

  function KnownKeys(existingKeys: seq<string>): set<string> {
    set k | k in existingKeys && Trim(k) != "" :: Trim(k)
  }

  function Parse(text: string, existingKeys: seq<string>): ParseResult {
    Collect(Verdicts(SourceLines(Split(text, '\n')), 1, KnownKeys(existingKeys)))
  }

  method ParseEnvBlockWithDiagnostics(text: string, existingKeys: seq<string>) returns (r: ParseResult)
    ensures r == Parse(text, existingKeys)
  {
    hide Judge, Split, SourceLines, KnownKeys, Verdicts, RowsOf, IssuesOf;
    NoLines();
    var rows: seq<Row>, issues: seq<Issue>, seen := [], [], KnownKeys(existingKeys);
    var lines := SourceLines(Split(text, '\n'));
    var index := 0;
    ghost var whole := Verdicts(lines, 1, seen);
    assert lines[0..] == lines;
    while index < |lines|
      invariant 0 <= index <= |lines|
      invariant RowsOf(whole) == rows + RowsOf(Verdicts(lines[index..], index + 1, seen))
      invariant IssuesOf(whole) == issues + IssuesOf(Verdicts(lines[index..], index + 1, seen))
    {
      assert lines[index..][1..] == lines[index + 1..];
      VerdictsStep(lines[index..], index + 1, seen);
      var verdict := JudgeLine(lines[index], index + 1, seen);
      match verdict {
        case Skipped =>
        case Accepted(row) =>
          seen := seen + {row.key};
          rows := rows + [row];
        case Rejected(issue) =>
          issues := issues + [issue];
      }
      index := index + 1;
    }
    r := ParseResult(rows, issues);
  }

  lemma NoLines()
    ensures forall n: nat, seen :: RowsOf(Verdicts([], n, seen)) == [] && IssuesOf(Verdicts([], n, seen)) == []
  {
  }

  lemma VerdictsStep(lines: seq<string>, number: nat, seen: set<string>)
    requires lines != []
    ensures var verdict := Judge(lines[0], number, seen);
      var rest := Verdicts(lines[1..], number + 1, Learn(seen, verdict));
      && RowsOf(Verdicts(lines, number, seen)) == (if verdict.Accepted? then [verdict.row] else []) + RowsOf(rest)
      && IssuesOf(Verdicts(lines, number, seen)) == (if verdict.Rejected? then [verdict.issue] else []) + IssuesOf(rest)
  {
    hide Judge;
    var verdict := Judge(lines[0], number, seen);
    var rest := Verdicts(lines[1..], number + 1, Learn(seen, verdict));
    assert ([verdict] + rest)[1..] == rest;
  }

  /** The loop body on one line. */
  method JudgeLine(sourceLine: string, number: nat, seen: set<string>) returns (v: Verdict)
    ensures v == Judge(sourceLine, number, seen)
  {
    hide Trim, TrimStart, Find, IsEnvKey;
    var line := Trim(sourceLine);
    if line == "" || line[0] == '#' { return Skipped; }
    if StartsWith(line, "export ") { line := TrimStart(line[7..]); }
    var eq := Find(line, '=');
    if eq == |line| { return Rejected(Issue(number, MissingEquals)); }
    var key := Trim(line[..eq]);
    if !IsEnvKey(key) { return Rejected(Issue(number, InvalidKey)); }
    if key in seen { return Rejected(Issue(number, DuplicateKey(key))); }
    v := Accepted(Row(key, line[eq + 1..]));
  }

  // ----- Every line gets one verdict, in order

  function KeysOf(rows: seq<Row>): set<string> {
    set row | row in rows :: row.key
  }

  /** The verdict on line i depends on its text, its number and the keys accepted before it. */
  lemma {:induction false} VerdictAt(lines: seq<string>, number: nat, seen: set<string>, i: nat)
    requires i < |lines|
    ensures var verdicts := Verdicts(lines, number, seen);
      verdicts[i] == Judge(lines[i], number + i, seen + KeysOf(RowsOf(verdicts[..i])))
    decreases |lines|
  {
    hide Judge;
    var verdicts := Verdicts(lines, number, seen);
    if i == 0 {
      assert KeysOf(RowsOf(verdicts[..0])) == {};
      assert seen + {} == seen;
    } else {
      var seen' := Learn(seen, verdicts[0]);
      VerdictAt(lines[1..], number + 1, seen', i - 1);
      assert verdicts[..i] == [verdicts[0]] + verdicts[1..][..i - 1];
      var rest := verdicts[1..][..i - 1];
      assert ([verdicts[0]] + rest)[1..] == rest;
      var first := if verdicts[0].Accepted? then [verdicts[0].row] else [];
      assert RowsOf(verdicts[..i]) == first + RowsOf(rest);
      KeysOfConcat(first, RowsOf(rest));
      assert seen' + KeysOf(RowsOf(rest)) == seen + KeysOf(RowsOf(verdicts[..i])) by {
        if verdicts[0].Accepted? { assert KeysOf(first) == {verdicts[0].row.key}; } else { assert KeysOf(first) == {}; }
      }
    }
  }

  lemma KeysOfConcat(a: seq<Row>, b: seq<Row>)
    ensures KeysOf(a + b) == KeysOf(a) + KeysOf(b)
  {
    assert forall row :: row in a + b <==> row in a || row in b;
  }

  /** An issue carries the number of its own line. */
  lemma IssueNumbers(lines: seq<string>, number: nat, seen: set<string>, i: nat)
    requires i < |lines| && Verdicts(lines, number, seen)[i].Rejected?
    ensures Verdicts(lines, number, seen)[i].issue.line == number + i
  {
    hide Verdicts, RowsOf, KeysOf, Trim;
    VerdictAt(lines, number, seen, i);
  }

  // ----- The grammar of a line

  /** Nothing, or the word export with white space behind it. */
  predicate IsExport(lead: string) {
    lead == "" || (StartsWith(lead, "export ") && AllSpace(lead[7..]))
  }

  /** The text is an export or nothing, the key, white space or nothing, '=' and the value. */
  predicate Assigns(t: string, lead: string, key: string, gap: string, value: string) {
    && t == lead + (key + gap + ['='] + value)
    && IsExport(lead) && (lead == "" ==> !StartsWith(t, "export ")) && AllSpace(gap)
  }

  lemma TrimOfStarted(s: string)
    requires s != "" ==> !IsSpace(s[0])
    ensures Trim(s) == TrimEnd(s)
  {
    hide IsSpace, TrimEnd;
    assert TrimStart(s) == s;
  }

  /** Trimming a key and the white space behind it leaves the key, and only then. */
  lemma KeyIsTrimmed(s: string, key: string)
    requires IsEnvKey(key) && (s != "" ==> !IsSpace(s[0]))
    ensures Trim(s) == key <==> key <= s && AllSpace(s[|key|..])
  {
    hide IsSpace, Trim, TrimEnd, IsEnvKey;
    TrimOfStarted(s);
    if Trim(s) == key {
      var rest := s[|key|..];
      assert forall i :: 0 <= i < |rest| ==> rest[i] == s[|key| + i];
    }
    if key <= s && AllSpace(s[|key|..]) {
      assert s == key + s[|key|..];
      KeyCharsAreNoSpace(key);
      EnvKeyNotEmpty(key);
      assert key[|key| - 1] in key;
      TrimsEnd(key, s[|key|..]);
    }
  }

  lemma KeyCharsAreNoSpace(key: string)
    requires IsEnvKey(key)
    ensures forall c :: c in key ==> !IsSpace(c) && c != '='
    ensures !IsSpace('=')
  {
  }

  /** What follows the export begins without white space. */
  lemma ExportParts(t: string) returns (lead: string)
    requires t != "" && !IsSpace(t[0])
    ensures t == lead + DropExport(t) && IsExport(lead) && (lead == "" ==> !StartsWith(t, "export "))
    ensures DropExport(t) != "" ==> !IsSpace(DropExport(t)[0])
    ensures '=' !in lead
  {
    hide IsSpace, TrimStart, AllSpace;
    if StartsWith(t, "export ") {
      var gap := SpaceBefore(t[7..]);
      lead := "export " + gap;
      assert lead[..7] == "export " && lead[7..] == gap;
      assert t == "export " + t[7..];
      NoEqualsInExport(gap);
    } else {
      lead := "";
    }
  }

  lemma NoEqualsInExport(gap: string)
    requires AllSpace(gap)
    ensures '=' !in "export " + gap
  {
    hide IsSpace;
    EqualsIsNoSpace();
    assert '=' !in "export ";
  }

  lemma EqualsIsNoSpace()
    ensures !IsSpace('=')
  {
  }

  lemma DropsExport(t: string, lead: string, line: string)
    requires t == lead + line && IsExport(lead) && (lead == "" ==> !StartsWith(t, "export "))
    requires line != "" && !IsSpace(line[0])
    ensures DropExport(t) == line
  {
    hide IsSpace, TrimStart;
    if lead != "" {
      assert t[..7] == lead[..7] && t[7..] == lead[7..] + line;
      TrimsStart(lead[7..], line);
    }
  }

  predicate IsBlankOrComment(line: string) {
    Trim(line) == "" || Trim(line)[0] == '#'
  }

  /** The last equals sign looked for is the first one of the line behind the export. */
  lemma AssignmentFound(t: string, lead: string, key: string, gap: string, value: string)
    requires IsEnvKey(key) && Assigns(t, lead, key, gap, value)
    ensures var line := DropExport(t); var eq := Find(line, '=');
      eq < |line| && Trim(line[..eq]) == key && line[eq + 1..] == value
  {
    hide IsSpace, Trim, TrimStart, DropExport, Find, IsEnvKey;
    var line := key + gap + ['='] + value;
    KeyCharsAreNoSpace(key);
    EnvKeyNotEmpty(key);
    assert key[0] in key && line[0] == key[0];
    DropsExport(t, lead, line);
    assert '=' !in key + gap by { assert forall c :: c in key + gap ==> c in key || c in gap; }
    FindAt(key + gap, '=', value);
    assert line[..|key + gap|] == key + gap;
    assert (key + gap)[|key|..] == gap && (key + gap)[0] == key[0];
    KeyIsTrimmed(key + gap, key);
  }

  lemma AssignmentParts(t: string, key: string) returns (lead: string, gap: string)
    requires t != "" && !IsSpace(t[0]) && IsEnvKey(key)
    requires var line := DropExport(t); Find(line, '=') < |line| && Trim(line[..Find(line, '=')]) == key
    ensures Assigns(t, lead, key, gap, DropExport(t)[Find(DropExport(t), '=') + 1..])
  {
    hide IsSpace, Trim, DropExport, Find, IsEnvKey;
    var line := DropExport(t);
    var eq := Find(line, '=');
    lead := ExportParts(t);
    assert line[..eq] != "" ==> line[..eq][0] == line[0];
    KeyIsTrimmed(line[..eq], key);
    gap := line[..eq][|key|..];
    assert line == key + gap + ['='] + line[eq + 1..];
  }

  /** A line is skipped exactly when it is blank or a comment, lacks its '=' exactly when there is none in it, and is
      otherwise accepted or a duplicate exactly when it assigns to a valid key. */
  lemma JudgeExactly(line: string, number: nat, seen: set<string>, key: string, value: string)
    ensures var verdict, t := Judge(line, number, seen), Trim(line);
      && (verdict.Skipped? <==> IsBlankOrComment(line))
      && (verdict == Rejected(Issue(number, MissingEquals)) <==> !IsBlankOrComment(line) && '=' !in t)
      && (verdict == Accepted(Row(key, value)) <==>
            && !IsBlankOrComment(line) && IsEnvKey(key) && key !in seen
            && exists lead, gap :: Assigns(t, lead, key, gap, value))
      && (verdict == Rejected(Issue(number, DuplicateKey(key))) <==>
            && !IsBlankOrComment(line) && IsEnvKey(key) && key in seen
            && exists lead, gap, v :: Assigns(t, lead, key, gap, v))
  {
    hide IsSpace, Trim, DropExport, Find, IsEnvKey, Assigns;
    var t := Trim(line);
    if !IsBlankOrComment(line) {
      EqualsSurvives(t);
      var rest := DropExport(t);
      var eq := Find(rest, '=');
      if eq < |rest| && IsEnvKey(Trim(rest[..eq])) {
        var lead, gap := AssignmentParts(t, Trim(rest[..eq]));
      }
      if IsEnvKey(key) {
        forall lead, gap, v | Assigns(t, lead, key, gap, v)
          ensures eq < |rest| && Trim(rest[..eq]) == key && rest[eq + 1..] == v
        {
          AssignmentFound(t, lead, key, gap, v);
        }
      }
    }
  }

  lemma EqualsSurvives(t: string)
    requires t != "" && !IsSpace(t[0])
    ensures Find(DropExport(t), '=') < |DropExport(t)| <==> '=' in t
  {
    hide IsSpace, DropExport, Find;
    var lead := ExportParts(t);
    var line := DropExport(t);
    var eq := Find(line, '=');
    assert t == lead + line;
    if eq == |line| { assert line[..eq] == line; } else { assert t[|lead| + eq] == '='; }
  }

  /** A line with content, as the parser sees it without white space around and an export in front. */
  predicate HasContent(line: string) {
    Trim(line) != "" && Trim(line)[0] != '#'
  }

  lemma SameContent(a: string, b: string, number: nat, seen: set<string>)
    requires HasContent(a) && HasContent(b) && DropExport(Trim(a)) == DropExport(Trim(b))
    ensures Judge(a, number, seen) == Judge(b, number, seen)
  {
    hide Trim, DropExport, Find, IsEnvKey;
  }

  datatype Kind = Blank | Good | Bad

  function KindOf(v: Verdict): Kind {
    match v
    case Skipped => Blank
    case Accepted(_) => Good
    case Rejected(_) => Bad
  }

  /** The lines with a verdict of this kind, in order, counted from the given number. */
  function LinesOf(verdicts: seq<Verdict>, kind: Kind, from: nat): seq<nat> {
    if verdicts == [] then []
    else (if KindOf(verdicts[0]) == kind then [from] else []) + LinesOf(verdicts[1..], kind, from + 1)
  }

  predicate Rising(places: seq<nat>) {
    forall i, j :: 0 <= i < j < |places| ==> places[i] < places[j]
  }

  lemma LinesOfStep(verdicts: seq<Verdict>, kind: Kind, from: nat)
    ensures LinesOf(verdicts, kind, from) ==
      if verdicts == [] then []
      else (if KindOf(verdicts[0]) == kind then [from] else []) + LinesOf(verdicts[1..], kind, from + 1)
  {
    hide KindOf;
  }

  lemma {:induction false} LineIsOfKind(verdicts: seq<Verdict>, kind: Kind, from: nat, n: nat)
    ensures n in LinesOf(verdicts, kind, from)
      <==> (from <= n < from + |verdicts| && KindOf(verdicts[n - from]) == kind)
    decreases |verdicts|
  {
    hide KindOf, LinesOf;
    LinesOfStep(verdicts, kind, from);
    if verdicts != [] {
      LineIsOfKind(verdicts[1..], kind, from + 1, n);
      assert from < n < from + |verdicts| ==> verdicts[1..][n - from - 1] == verdicts[n - from];
    }
  }

  lemma {:induction false} LinesRise(verdicts: seq<Verdict>, kind: Kind, from: nat, i: nat, j: nat)
    requires i < j < |LinesOf(verdicts, kind, from)|
    ensures LinesOf(verdicts, kind, from)[i] < LinesOf(verdicts, kind, from)[j]
    decreases |verdicts|
  {
    hide KindOf;
    var later := LinesOf(verdicts[1..], kind, from + 1);
    if KindOf(verdicts[0]) != kind {
      LinesRise(verdicts[1..], kind, from + 1, i, j);
    } else if i == 0 {
      assert later[j - 1] in later;
      LineIsOfKind(verdicts[1..], kind, from + 1, later[j - 1]);
    } else {
      LinesRise(verdicts[1..], kind, from + 1, i - 1, j - 1);
    }
  }

  lemma LinesOfKind(verdicts: seq<Verdict>, kind: Kind, from: nat)
    ensures Rising(LinesOf(verdicts, kind, from))
    ensures forall n :: (n in LinesOf(verdicts, kind, from) <==>
      from <= n < from + |verdicts| && KindOf(verdicts[n - from]) == kind)
  {
    hide KindOf, LinesOf;
    forall n: nat
      ensures n in LinesOf(verdicts, kind, from) <==>
        (from <= n < from + |verdicts| && KindOf(verdicts[n - from]) == kind)
    {
      LineIsOfKind(verdicts, kind, from, n);
    }
    forall i: nat, j: nat | i < j < |LinesOf(verdicts, kind, from)|
      ensures LinesOf(verdicts, kind, from)[i] < LinesOf(verdicts, kind, from)[j]
    {
      LinesRise(verdicts, kind, from, i, j);
    }
  }

  lemma {:induction false} KindsMakeUpAll(verdicts: seq<Verdict>, from: nat)
    ensures |LinesOf(verdicts, Blank, from)| + |LinesOf(verdicts, Good, from)| + |LinesOf(verdicts, Bad, from)|
      == |verdicts|
  {
    if verdicts != [] {
      KindsMakeUpAll(verdicts[1..], from + 1);
    }
  }

  lemma {:induction false} RowsInPlace(verdicts: seq<Verdict>, from: nat)
    ensures var places, rows := LinesOf(verdicts, Good, from), RowsOf(verdicts);
      |rows| == |places| && forall j :: 0 <= j < |rows| ==>
        from <= places[j] < from + |verdicts| && verdicts[places[j] - from] == Accepted(rows[j])
  {
    if verdicts != [] {
      RowsInPlace(verdicts[1..], from + 1);
    }
  }

  lemma {:induction false} IssuesInPlace(verdicts: seq<Verdict>, from: nat)
    ensures var places, issues := LinesOf(verdicts, Bad, from), IssuesOf(verdicts);
      |issues| == |places| && forall j :: 0 <= j < |issues| ==>
        from <= places[j] < from + |verdicts| && verdicts[places[j] - from] == Rejected(issues[j])
  {
    if verdicts != [] {
      IssuesInPlace(verdicts[1..], from + 1);
    }
  }

  /** Every line of a text is exactly one of skipped, row or issue. The rows and the issues of the parse come in the
      order of their lines, each row from the line that was judged to hold it, each issue with the number of its
      line. */
  lemma LinesAccountedFor(text: string, existingKeys: seq<string>)
    ensures var lines, parse := SourceLines(Split(text, '\n')), Parse(text, existingKeys);
      var verdicts := Verdicts(lines, 1, KnownKeys(existingKeys));
      var blank, good, bad := LinesOf(verdicts, Blank, 1), LinesOf(verdicts, Good, 1), LinesOf(verdicts, Bad, 1);
      && |verdicts| == |lines| == |blank| + |good| + |bad|
      && Rising(blank) && Rising(good) && Rising(bad)
      && (forall n :: 1 <= n <= |lines| ==> n in blank + good + bad)
      && |good| == |parse.rows|
      && (forall j :: 0 <= j < |good| ==> 1 <= good[j] <= |lines| && verdicts[good[j] - 1] == Accepted(parse.rows[j]))
      && |bad| == |parse.issues|
      && (forall j :: 0 <= j < |bad| ==> parse.issues[j].line == bad[j])
  {
    hide Judge, Split, SourceLines, KnownKeys, Verdicts, LinesOf, RowsOf, IssuesOf;
    var lines, seen := SourceLines(Split(text, '\n')), KnownKeys(existingKeys);
    var verdicts := Verdicts(lines, 1, seen);
    LinesOfKind(verdicts, Blank, 1);
    LinesOfKind(verdicts, Good, 1);
    LinesOfKind(verdicts, Bad, 1);
    KindsMakeUpAll(verdicts, 1);
    RowsInPlace(verdicts, 1);
    IssuesInPlace(verdicts, 1);
    var bad := LinesOf(verdicts, Bad, 1);
    forall j | 0 <= j < |bad| ensures IssuesOf(verdicts)[j].line == bad[j] {
      IssueNumbers(lines, 1, seen, bad[j] - 1);
    }
  }

  /** One "export " in front of a line makes no difference to its verdict, unless a comment or another export follows
      it. */
  lemma ExportIsIgnored(line: string, number: nat, seen: set<string>)
    requires HasContent(line) && !StartsWith(Trim(line), "export ")
    ensures Judge("export " + Trim(line), number, seen) == Judge(line, number, seen)
  {
    hide Trim, TrimStart, IsSpace, Judge;
    var trimmed := Trim(line);
    var exported := "export " + trimmed;
    EIsNoSpace();
    assert exported[0] == 'e' && exported[..7] == "export " && exported[7..] == trimmed;
    assert exported[|exported| - 1] == trimmed[|trimmed| - 1];
    assert Trim(exported) == exported;
    assert DropExport(exported) == TrimStart(trimmed);
    assert TrimStart(trimmed) == trimmed;
    SameContent(exported, line, number, seen);
  }

  lemma EIsNoSpace()
    ensures !IsSpace('e')
  {
  }

  // ----- Round trips

  predicate CleanValue(v: string) {
    '\n' !in v && (v != "" ==> !IsSpace(v[|v| - 1]))
  }

  predicate DistinctKeys(rows: seq<Row>) {
    forall i, j :: 0 <= i < j < |rows| ==> rows[i].key != rows[j].key
  }

  /** Rows that survive printing: valid, distinct keys, one-line values that do not end in white space. */
  predicate Printable(rows: seq<Row>) {
    (forall row :: row in rows ==> IsEnvKey(row.key) && CleanValue(row.value)) && DistinctKeys(rows)
  }

  lemma KeysAreTrimmed(key: string)
    requires IsEnvKey(key)
    ensures Trim(key) == key && '=' !in key && ' ' !in key && '\n' !in key && key[0] != '#'
  {
    hide Trim;
    assert key[0] in key && key[|key| - 1] in key;
  }

  function Line(row: Row): string {
    row.key + "=" + row.value
  }

  lemma LineShape(row: Row)
    requires IsEnvKey(row.key) && CleanValue(row.value)
    ensures |Line(row)| == |row.key| + 1 + |row.value|
    ensures Line(row)[0] != '#' && !StartsWith(Line(row), "export ")
    ensures Line(row)[..|row.key|] == row.key && Line(row)[|row.key| + 1..] == row.value
    ensures Find(Line(row), '=') == |row.key|
    ensures '\n' !in Line(row) && Trim(Line(row)) == Line(row) && DropReturn(Line(row)) == Line(row)
  {
    hide Trim, Find;
    KeysAreTrimmed(row.key);
    var line, k := Line(row), |row.key|;
    assert line == row.key + ['='] + row.value;
    FindAt(row.key, '=', row.value);
    assert line[0] == row.key[0] && row.key[0] in row.key;
    assert !IsSpace(line[|line| - 1]);
    assert Trim(line) == line;
    // "export " has its blank at 6 and no '='.
    assert k > 6 ==> line[6] == row.key[6] && row.key[6] in row.key;
    assert k <= 6 ==> line[k] == '=' && "export "[k] != '=';
    assert line[|line| - 1..] == [line[|line| - 1]];
  }

  lemma JudgePrinted(row: Row, number: nat, seen: set<string>)
    requires IsEnvKey(row.key) && CleanValue(row.value) && row.key !in seen
    ensures Judge(Line(row), number, seen) == Accepted(row)
  {
    hide Trim, Find;
    LineShape(row);
    KeysAreTrimmed(row.key);
  }

  function PrintedLines(rows: seq<Row>): seq<string> {
    if rows == [] then [] else [Line(rows[0])] + PrintedLines(rows[1..])
  }

  lemma {:induction false} LinesOfPrintable(rows: seq<Row>)
    requires forall row :: row in rows ==> IsEnvKey(row.key) && CleanValue(row.value)
    ensures Lines(rows) == PrintedLines(rows) && |PrintedLines(rows)| == |rows|
    ensures forall line :: line in PrintedLines(rows) ==> '\n' !in line
    ensures SourceLines(PrintedLines(rows)) == PrintedLines(rows)
  {
    hide Trim, IsEnvKey, CleanValue;
    if rows != [] {
      assert rows[0] in rows;
      KeysAreTrimmed(rows[0].key);
      EnvKeyNotEmpty(rows[0].key);
      LineShape(rows[0]);
      LinesOfPrintable(rows[1..]);
    }
  }

  lemma EnvKeyNotEmpty(key: string)
    requires IsEnvKey(key)
    ensures key != ""
  {
  }

  lemma {:induction false} VerdictsOnPrinted(rows: seq<Row>, number: nat, seen: set<string>)
    requires Printable(rows) && forall row :: row in rows ==> row.key !in seen
    ensures Collect(Verdicts(PrintedLines(rows), number, seen)) == ParseResult(rows, [])
    decreases |rows|
  {
    hide Judge, IsEnvKey, CleanValue, Line;
    if rows != [] {
      var row := rows[0];
      assert row in rows;
      JudgePrinted(row, number, seen);
      var rest := seen + {row.key};
      forall other | other in rows[1..] ensures other.key !in rest {
        var i :| 0 <= i < |rows[1..]| && rows[1..][i] == other;
        assert rows[i + 1].key != rows[0].key;
      }
      VerdictsOnPrinted(rows[1..], number + 1, rest);
      VerdictsStep(PrintedLines(rows), number, seen);
      assert rows == [row] + rows[1..];
    }
  }

  lemma PrintThenParse(rows: seq<Row>)
    requires Printable(rows)
    ensures Parse(FormatEnvBlock(rows), []) == ParseResult(rows, [])
  {
    hide Split, Judge, IsEnvKey, CleanValue, Join, Lines;
    LinesOfPrintable(rows);
    assert KnownKeys([]) == {};
    if rows == [] {
      NothingToParse();
    } else {
      SplitJoin(PrintedLines(rows), '\n');
      VerdictsOnPrinted(rows, 1, {});
    }
  }

  lemma NothingToParse()
    ensures Parse(FormatEnvBlock([]), []) == ParseResult([], [])
  {
    assert Split("", '\n') == [""];
    assert Judge("", 1, {}) == Skipped;
    assert Verdicts([""], 1, {}) == [Skipped];
  }

  // ----- Whatever a parse accepts can be printed

  lemma DropExportKeeps(line: string)
    ensures var r := DropExport(line);
      |r| <= |line| && r == line[|line| - |r|..] && forall c :: c in r ==> c in line
  {
    hide TrimStart;
    var r := DropExport(line);
    if StartsWith(line, "export ") {
      assert line[7..][|line[7..]| - |r|..] == line[|line| - |r|..];
    }
  }

  lemma AcceptedIsClean(sourceLine: string, number: nat, seen: set<string>)
    requires '\n' !in sourceLine && Judge(sourceLine, number, seen).Accepted?
    ensures var row := Judge(sourceLine, number, seen).row;
      IsEnvKey(row.key) && CleanValue(row.value) && row.key !in seen
  {
    hide Trim, Find, IsEnvKey, DropExport;
    var trimmed := Trim(sourceLine);
    var line := DropExport(trimmed);
    TrimKeeps(sourceLine);
    DropExportKeeps(trimmed);
    var eq := Find(line, '=');
    assert line[|line| - 1] == trimmed[|trimmed| - 1];
    assert forall c :: c in line[eq + 1..] ==> c in line;
  }

  lemma TrimKeeps(s: string)
    ensures forall c :: c in Trim(s) ==> c in s
  {
    hide TrimStart, TrimEnd;
    var t := TrimStart(s);
    assert forall c :: c in t ==> c in s;
    assert forall c :: c in TrimEnd(t) ==> c in t;
  }

  lemma {:induction false} AcceptedRowsPrintable(lines: seq<string>, number: nat, seen: set<string>)
    requires forall line :: line in lines ==> '\n' !in line
    ensures var rows := RowsOf(Verdicts(lines, number, seen));
      Printable(rows) && forall row :: row in rows ==> row.key !in seen
    decreases |lines|
  {
    hide Judge, IsEnvKey, CleanValue;
    if lines != [] {
      assert lines[0] in lines;
      var verdict := Judge(lines[0], number, seen);
      var rest := RowsOf(Verdicts(lines[1..], number + 1, Learn(seen, verdict)));
      AcceptedRowsPrintable(lines[1..], number + 1, Learn(seen, verdict));
      VerdictsStep(lines, number, seen);
      if verdict.Accepted? {
        AcceptedIsClean(lines[0], number, seen);
        ConsPrintable(verdict.row, rest);
      }
    }
  }

  lemma ConsPrintable(row: Row, rest: seq<Row>)
    requires IsEnvKey(row.key) && CleanValue(row.value) && Printable(rest)
    requires forall other :: other in rest ==> other.key != row.key
    ensures Printable([row] + rest)
  {
    hide IsEnvKey, CleanValue;
    var all := [row] + rest;
    forall i, j | 0 <= i < j < |all| ensures all[i].key != all[j].key {
      assert all[j] == rest[j - 1] && rest[j - 1] in rest;
      if i > 0 { assert all[i] == rest[i - 1]; }
    }
  }

  lemma {:induction false} SourceLinesKeep(pieces: seq<string>)
    requires forall p :: p in pieces ==> '\n' !in p
    ensures forall line :: line in SourceLines(pieces) ==> '\n' !in line
  {
    if |pieces| > 1 {
      assert pieces[0] in pieces;
      assert forall c :: c in DropReturn(pieces[0]) ==> c in pieces[0];
      SourceLinesKeep(pieces[1..]);
    }
  }

  lemma ParsedRowsPrintable(text: string, existingKeys: seq<string>)
    ensures var rows := Parse(text, existingKeys).rows;
      Printable(rows) && forall row :: row in rows ==> row.key !in KnownKeys(existingKeys)
  {
    hide SourceLines, Verdicts, Split, Printable, RowsOf;
    SourceLinesKeep(Split(text, '\n'));
    AcceptedRowsPrintable(SourceLines(Split(text, '\n')), 1, KnownKeys(existingKeys));
  }

  /** Printing and parsing gives the same rows and no issue, exactly for printable rows. */
  lemma RoundTrip(rows: seq<Row>)
    ensures Parse(FormatEnvBlock(rows), []) == ParseResult(rows, []) <==> Printable(rows)
  {
    hide Parse, FormatEnvBlock, Printable;
    ParsedRowsPrintable(FormatEnvBlock(rows), []);
    if Printable(rows) {
      PrintThenParse(rows);
    }
  }

  /** Printing and re-parsing the rows of any parse gives those rows back. */
  lemma ReparseRows(text: string, existingKeys: seq<string>)
    ensures var rows := Parse(text, existingKeys).rows;
      Parse(FormatEnvBlock(rows), []) == ParseResult(rows, [])
  {
    hide Parse, FormatEnvBlock, Printable;
    ParsedRowsPrintable(text, existingKeys);
    PrintThenParse(Parse(text, existingKeys).rows);
  }

  // ----- Rows as the form holds them

  /** The rows with a key, the keys trimmed. */
  function Tidy(rows: seq<Row>): seq<Row> {
    if rows == [] then []
    else (if Trim(rows[0].key) == "" then [] else [Row(Trim(rows[0].key), rows[0].value)]) + Tidy(rows[1..])
  }

  lemma {:induction false} TidyPrintsAlike(rows: seq<Row>)
    ensures Lines(Tidy(rows)) == Lines(rows)
  {
    hide Trim;
    if rows != [] {
      TidyPrintsAlike(rows[1..]);
      var key := Trim(rows[0].key);
      assert Trim(key) == key by { TrimTwice(rows[0].key); }
      if key == "" {
        assert Tidy(rows) == Tidy(rows[1..]);
      } else {
        assert Tidy(rows)[1..] == Tidy(rows[1..]);
      }
    }
  }

  lemma TrimTwice(s: string)
    ensures Trim(Trim(s)) == Trim(s)
  {
    hide TrimStart, TrimEnd;
    if Trim(s) == "" { assert Trim("") == ""; }
  }

  /** Printing drops rows without a key and white space around keys: what comes back is the tidy form, exactly when that
      is printable. */
  lemma TidyRoundTrip(rows: seq<Row>)
    ensures Parse(FormatEnvBlock(rows), []) == ParseResult(Tidy(rows), []) <==> Printable(Tidy(rows))
  {
    hide Parse, Printable, Lines, Tidy;
    TidyPrintsAlike(rows);
    RoundTrip(Tidy(rows));
  }

  // ----- Importing into the wizard

  function NamedRows(rows: seq<Row>): (r: seq<Row>)
    ensures forall row :: row in r <==> row in rows && Trim(row.key) != ""
  {
    if rows == [] then []
    else (if Trim(rows[0].key) == "" then [] else [rows[0]]) + NamedRows(rows[1..])
  }

  function KeyTexts(rows: seq<Row>): seq<string> {
    seq(|rows|, i requires 0 <= i < |rows| => rows[i].key)
  }

  /** The trimmed, non-blank keys are pairwise distinct. */
  predicate DistinctNames(rows: seq<Row>) {
    forall i, j :: 0 <= i < j < |rows| && Trim(rows[i].key) != "" ==> Trim(rows[i].key) != Trim(rows[j].key)
  }

  /** The rows after an import, and whether it took place. */
  function Imported(rows: seq<Row>, text: string): (seq<Row>, bool) {
    var merged := NamedRows(rows);
    var parsed := Parse(text, KeyTexts(merged));
    if parsed.issues != [] || parsed.rows == [] then (rows, false) else (merged + parsed.rows, true)
  }

  lemma ConsDistinctNames(row: Row, rest: seq<Row>)
    requires DistinctNames(rest) && forall other :: other in rest ==> Trim(other.key) != Trim(row.key)
    ensures DistinctNames([row] + rest)
  {
    hide Trim;
    var all := [row] + rest;
    forall i, j | 0 <= i < j < |all| && Trim(all[i].key) != "" ensures Trim(all[i].key) != Trim(all[j].key) {
      assert all[j] == rest[j - 1] && rest[j - 1] in rest;
      assert i > 0 ==> all[i] == rest[i - 1];
    }
  }

  lemma {:induction false} NamedRowsDistinct(rows: seq<Row>)
    requires DistinctNames(rows)
    ensures DistinctNames(NamedRows(rows))
  {
    hide Trim;
    if rows != [] {
      var row, tail := rows[0], rows[1..];
      assert forall i :: 0 <= i < |tail| ==> tail[i] == rows[i + 1];
      NamedRowsDistinct(tail);
      if Trim(row.key) != "" {
        forall other | other in NamedRows(tail) ensures Trim(other.key) != Trim(row.key) {
          var k :| 0 <= k < |tail| && tail[k] == other;
          assert rows[k + 1] == other;
        }
        ConsDistinctNames(row, NamedRows(tail));
      }
    }
  }

  lemma ImportKeepsDistinct(rows: seq<Row>, text: string)
    requires DistinctNames(rows)
    ensures DistinctNames(Imported(rows, text).0)
    ensures Parse(text, KeyTexts(NamedRows(rows))).issues != [] ==> Imported(rows, text) == (rows, false)
  {
    hide Trim, Parse, IsEnvKey, CleanValue, NamedRows;
    var merged := NamedRows(rows);
    var keys := KeyTexts(merged);
    var parsed := Parse(text, keys);
    if Imported(rows, text).1 {
      NamedRowsDistinct(rows);
      ParsedRowsPrintable(text, keys);
      var all := merged + parsed.rows;
      forall i, j | 0 <= i < j < |all| && Trim(all[i].key) != ""
        ensures Trim(all[i].key) != Trim(all[j].key)
      {
        if j >= |merged| {
          var row := parsed.rows[j - |merged|];
          assert all[j] == row && row in parsed.rows;
          KeysAreTrimmed(row.key);
          if i < |merged| {
            assert keys[i] == all[i].key && keys[i] in keys;
            assert Trim(keys[i]) in KnownKeys(keys);
          } else {
            assert all[i] == parsed.rows[i - |merged|] && all[i] in parsed.rows;
            KeysAreTrimmed(all[i].key);
          }
        }
      }
    }
  }

  /** The trimmed, non-blank keys that rows hold already. */
  lemma KnownKeysAre(existingKeys: seq<string>, key: string)
    ensures key in KnownKeys(existingKeys) <==> key != "" && exists k :: k in existingKeys && Trim(k) == key
  {
    hide Trim;
  }

  /** Importing a printed block of new, printable rows appends exactly those rows to the rows that have a name. */
  lemma ImportOfPrinted(rows: seq<Row>, added: seq<Row>)
    requires Printable(added) && added != []
    requires forall row, other :: row in rows && other in added ==> Trim(row.key) != other.key
    ensures Imported(rows, FormatEnvBlock(added)) == (NamedRows(rows) + added, true)
  {
    hide Split, Judge, IsEnvKey, CleanValue, Join, Lines, NamedRows, Trim;
    var keys := KeyTexts(NamedRows(rows));
    LinesOfPrintable(added);
    SplitJoin(PrintedLines(added), '\n');
    forall other | other in added ensures other.key !in KnownKeys(keys) {
      forall k | k in keys ensures Trim(k) != other.key {
        var i :| 0 <= i < |keys| && keys[i] == k;
        assert NamedRows(rows)[i] in NamedRows(rows);
      }
    }
    VerdictsOnPrinted(added, 1, KnownKeys(keys));
  }

  /** A text that holds a name the form already has is not imported at all. */
  lemma TakenNameIsNoImport(rows: seq<Row>, text: string, i: nat, row: Row, lead: string, gap: string, value: string)
    requires row in rows && IsEnvKey(Trim(row.key))
    requires var lines := SourceLines(Split(text, '\n'));
      i < |lines| && !IsBlankOrComment(lines[i]) && Assigns(Trim(lines[i]), lead, Trim(row.key), gap, value)
    ensures Imported(rows, text) == (rows, false)
  {
    hide Split, Judge, IsEnvKey, Trim, NamedRows, SourceLines, Assigns, Verdicts, IssuesOf, RowsOf, IsBlankOrComment;
    var lines, keys := SourceLines(Split(text, '\n')), KeyTexts(NamedRows(rows));
    var known, verdicts := KnownKeys(keys), Verdicts(lines, 1, KnownKeys(keys));
    EnvKeyNotEmpty(Trim(row.key));
    assert row in NamedRows(rows);
    var n :| 0 <= n < |NamedRows(rows)| && NamedRows(rows)[n] == row;
    assert keys[n] == row.key && Trim(keys[n]) in known;
    VerdictAt(lines, 1, known, i);
    JudgeExactly(lines[i], 1 + i, known + KeysOf(RowsOf(verdicts[..i])), Trim(row.key), value);
    assert verdicts[i].Rejected?;
    SomeIssue(verdicts, i);
  }

  lemma {:induction false} SomeIssue(verdicts: seq<Verdict>, i: nat)
    requires i < |verdicts| && verdicts[i].Rejected?
    ensures IssuesOf(verdicts) != []
  {
    if i > 0 { SomeIssue(verdicts[1..], i - 1); }
  }

  function ImportAll(rows: seq<Row>, texts: seq<string>): seq<Row>
    decreases |texts|
  {
    if texts == [] then rows else ImportAll(Imported(rows, texts[0]).0, texts[1..])
  }

  /** Over every run of imports the names stay distinct. */
  lemma {:induction false} ImportsKeepDistinct(rows: seq<Row>, texts: seq<string>)
    requires DistinctNames(rows)
    ensures DistinctNames(ImportAll(rows, texts))
    decreases |texts|
  {
    hide DistinctNames, Imported;
    if texts != [] {
      ImportKeepsDistinct(rows, texts[0]);
      ImportsKeepDistinct(Imported(rows, texts[0]).0, texts[1..]);
    }
  }

  /** The rows of the wizard; the page's own rows are read first. */
  class Wizard {
    var envRows: seq<Row>

    constructor ()
      ensures envRows == [Row("", "")]
    {
      envRows := [Row("", "")];
    }

    method SyncEnvRowsFromDom(dom: seq<Row>)
      modifies this
      ensures envRows == if dom == [] then [Row("", "")] else dom
    {
      envRows := if dom == [] then [Row("", "")] else dom;
    }

    method ImportEnvText(dom: seq<Row>, text: string) returns (done: bool)
      modifies this
      ensures var shown := if dom == [] then [Row("", "")] else dom;
        (envRows, done) == Imported(shown, text)
      ensures DistinctNames(if dom == [] then [Row("", "")] else dom) ==> DistinctNames(envRows)
    {
      hide Parse, DistinctNames, NamedRows, KeyTexts;
      SyncEnvRowsFromDom(dom);
      if DistinctNames(envRows) { ImportKeepsDistinct(envRows, text); }
      var merged := NamedRows(envRows);
      var parsed := ParseEnvBlockWithDiagnostics(text, KeyTexts(merged));
      if parsed.issues != [] { return false; }
      if parsed.rows == [] { return false; }
      envRows := merged + parsed.rows;
      done := true;
    }
  }
}
