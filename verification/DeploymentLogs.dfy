/** The build-log panel: folding progress lines and rendering rows incrementally. */
module DeploymentLogs {
  import opened Text

  // ----- Progress lines

  const PROGRESS_NAMES := ["counting objects", "compressing objects", "receiving objects", "resolving deltas"]

  predicate StartsWithIgnoringCase(s: string, prefix: string) {
    |prefix| <= |s| && Lower(s[..|prefix|]) == prefix
  }

  function DigitCount(s: string): (k: nat)
    ensures k <= |s|
  {
    if s != "" && IsDigit(s[0]) then 1 + DigitCount(s[1..]) else 0
  }

  /** A colon, white space, digits and a percent sign. */
  predicate IsPercentage(s: string) {
    && |s| >= 2 && s[0] == ':' && IsSpace(s[1])
    && var rest := TrimStart(s[1..]);
       var k := DigitCount(rest);
       0 < k < |rest| && rest[k] == '%'
  }

  /** The line is git progress such as "remote: Counting objects:  45% (5/11)". */
  predicate IsProgress(line: string) {
    var t := Trim(line);
    var body := if StartsWithIgnoringCase(t, "remote:") then TrimStart(t[7..]) else t;
    exists i :: 0 <= i < |PROGRESS_NAMES| &&
      StartsWithIgnoringCase(body, PROGRESS_NAMES[i]) && IsPercentage(body[|PROGRESS_NAMES[i]|..])
  }

  // ----- Which lines are progress

  predicate AllDigits(s: string) {
    forall c :: c in s ==> IsDigit(c)
  }

  /** Nothing, or "remote:" in any case and any white space. */
  predicate IsLead(lead: string) {
    lead == "" || (StartsWithIgnoringCase(lead, "remote:") && AllSpace(lead[7..]))
  }

  /** The parts of a progress text: lead, name, colon, white space, digits, percent sign, and anything. */
  predicate AreParts(t: string, lead: string, name: string, gap: string, digits: string, rest: string) {
    && t == lead + (name + (":" + gap + (digits + ("%" + rest))))
    && IsLead(lead) && Lower(name) in PROGRESS_NAMES
    && gap != "" && AllSpace(gap) && digits != "" && AllDigits(digits)
  }

  lemma {:induction false} CountsDigits(digits: string, s: string)
    requires AllDigits(digits) && (s != "" ==> !IsDigit(s[0]))
    ensures DigitCount(digits + s) == |digits|
    decreases |digits|
  {
    if digits == "" {
      assert digits + s == s;
    } else {
      assert digits[0] in digits && (digits + s)[1..] == digits[1..] + s;
      CountsDigits(digits[1..], s);
    }
  }

  lemma {:induction false} DigitCountIs(s: string)
    ensures forall i :: 0 <= i < DigitCount(s) ==> IsDigit(s[i])
    ensures DigitCount(s) < |s| ==> !IsDigit(s[DigitCount(s)])
  {
    hide IsDigit;
    if s != "" && IsDigit(s[0]) {
      DigitCountIs(s[1..]);
      assert forall i :: 1 <= i < |s| ==> s[i] == s[1..][i - 1];
    }
  }

  lemma DigitIsNoSpace(c: char)
    requires IsDigit(c)
    ensures !IsSpace(c)
  {
  }

  lemma PercentageParts(s: string) returns (gap: string, digits: string, rest: string)
    requires IsPercentage(s)
    ensures s == ":" + gap + (digits + ("%" + rest))
    ensures gap != "" && AllSpace(gap) && digits != "" && AllDigits(digits)
  {
    hide IsSpace, AllSpace, TrimStart, DigitCount;
    gap := SpaceBefore(s[1..]);
    digits, rest := DigitsBefore(TrimStart(s[1..]));
    assert s == ":" + s[1..];
    assert TrimStart(s[1..]) != "" && !IsSpace(TrimStart(s[1..])[0]);
  }

  lemma DigitsBefore(t: string) returns (digits: string, rest: string)
    requires 0 < DigitCount(t) < |t| && t[DigitCount(t)] == '%'
    ensures t == digits + ("%" + rest) && digits != "" && AllDigits(digits)
  {
    hide IsDigit, DigitCount;
    var k := DigitCount(t);
    DigitCountIs(t);
    digits, rest := t[..k], t[k + 1..];
    assert forall i :: 0 <= i < k ==> digits[i] == t[i];
  }

  lemma PartsArePercentage(gap: string, digits: string, rest: string)
    requires gap != "" && AllSpace(gap) && digits != "" && AllDigits(digits)
    ensures IsPercentage(":" + gap + (digits + ("%" + rest)))
  {
    hide IsSpace, DigitCount;
    var t := digits + ("%" + rest);
    var s := ":" + gap + t;
    assert s[1..] == gap + t && gap[0] in gap && digits[0] in digits;
    DigitIsNoSpace(digits[0]);
    TrimsStart(gap, t);
    CountsDigits(digits, "%" + rest);
  }

  /** Names of git's progress lines begin unlike the lead. */
  lemma NameIsNoLead(t: string, name: string)
    requires name <= t && Lower(name) in PROGRESS_NAMES
    ensures !StartsWithIgnoringCase(t, "remote:") && name != "" && !IsSpace(name[0])
  {
    var n := Lower(name);
    assert n[2] != "remote:"[2] || n[0] != "remote:"[0];
    assert forall k :: 0 <= k < 3 ==> n[k] == LowerChar(t[k]);
    assert |t| >= 7 ==> forall k :: 0 <= k < 3 ==> Lower(t[..7])[k] == LowerChar(t[k]);
  }

  lemma BodyAfterLead(lead: string, body: string, name: string)
    requires IsLead(lead) && name <= body && Lower(name) in PROGRESS_NAMES
    ensures var t := lead + body;
      (if StartsWithIgnoringCase(t, "remote:") then TrimStart(t[7..]) else t) == body
  {
    hide IsSpace, Lower, TrimStart;
    var t := lead + body;
    NameIsNoLead(body, name);
    if lead == "" {
      assert t == body;
    } else {
      assert t[..7] == lead[..7] && t[7..] == lead[7..] + body;
      TrimsStart(lead[7..], body);
    }
  }

  /** A line is progress exactly when its trimmed text is made of these parts. */
  lemma ProgressLines(line: string)
    ensures IsProgress(line) <==>
      exists lead, name, gap, digits, rest :: AreParts(Trim(line), lead, name, gap, digits, rest)
  {
    hide Trim, Lower, IsPercentage, IsSpace, IsDigit, AreParts;
    if IsProgress(line) {
      var lead, name, gap, digits, rest := ProgressParts(line);
    }
    if lead, name, gap, digits, rest :| AreParts(Trim(line), lead, name, gap, digits, rest) {
      PartsAreProgress(line, lead, name, gap, digits, rest);
    }
  }

  /** The body of a progress text, behind its lead. */
  lemma LeadOf(t: string) returns (lead: string)
    ensures var body := if StartsWithIgnoringCase(t, "remote:") then TrimStart(t[7..]) else t;
      t == lead + body && IsLead(lead)
  {
    hide Lower, AllSpace, TrimStart, IsLead;
    if StartsWithIgnoringCase(t, "remote:") {
      var gap := SpaceBefore(t[7..]);
      LeadIs(t[..7], gap);
      lead := t[..7] + gap;
      assert t == t[..7] + t[7..];
    } else {
      lead := "";
      NoLead();
    }
  }

  lemma NoLead()
    ensures IsLead("")
  {
  }

  lemma LeadIs(head: string, gap: string)
    requires |head| == 7 && Lower(head) == "remote:" && AllSpace(gap)
    ensures IsLead(head + gap)
  {
    hide Lower, AllSpace;
    assert (head + gap)[..7] == head && (head + gap)[7..] == gap;
  }

  lemma ProgressParts(line: string) returns (lead: string, name: string, gap: string, digits: string, rest: string)
    requires IsProgress(line)
    ensures AreParts(Trim(line), lead, name, gap, digits, rest)
  {
    hide Trim, Lower, IsPercentage, TrimStart, IsLead, AllSpace, AllDigits;
    var t := Trim(line);
    var body := if StartsWithIgnoringCase(t, "remote:") then TrimStart(t[7..]) else t;
    var i :| 0 <= i < |PROGRESS_NAMES|
      && StartsWithIgnoringCase(body, PROGRESS_NAMES[i]) && IsPercentage(body[|PROGRESS_NAMES[i]|..]);
    var n := |PROGRESS_NAMES[i]|;
    lead := LeadOf(t);
    name := body[..n];
    gap, digits, rest := BodyParts(lead, body, PROGRESS_NAMES[i]);
  }

  lemma BodyParts(lead: string, body: string, lower: string) returns (gap: string, digits: string, rest: string)
    requires lower in PROGRESS_NAMES && IsLead(lead)
    requires StartsWithIgnoringCase(body, lower) && IsPercentage(body[|lower|..])
    ensures AreParts(lead + body, lead, body[..|lower|], gap, digits, rest)
  {
    hide Lower, IsPercentage, IsLead, AllSpace, AllDigits;
    gap, digits, rest := PercentageParts(body[|lower|..]);
    assert body == body[..|lower|] + body[|lower|..];
  }

  lemma PartsAreProgress(line: string, lead: string, name: string, gap: string, digits: string, rest: string)
    requires AreParts(Trim(line), lead, name, gap, digits, rest)
    ensures IsProgress(line)
  {
    hide Trim, Lower, IsPercentage, IsSpace, IsDigit, TrimStart, IsLead;
    var percentage := ":" + gap + (digits + ("%" + rest));
    var body := name + percentage;
    PartsArePercentage(gap, digits, rest);
    BodyAfterLead(lead, body, name);
    var i :| 0 <= i < |PROGRESS_NAMES| && PROGRESS_NAMES[i] == Lower(name);
    assert body[..|name|] == name && body[|name|..] == percentage;
  }

  // ----- Folding

  /** Lines without a progress line that another progress line directly follows. */
  function Folded(lines: seq<string>): seq<string> {
    if lines == [] then []
    else if |lines| > 1 && IsProgress(lines[0]) && IsProgress(lines[1]) then Folded(lines[1..])
    else [lines[0]] + Folded(lines[1..])
  }

  lemma ProgressIsNotEmpty(line: string)
    ensures IsProgress(line) ==> line != ""
  {
  }

  /** The progress line still held back, if there is one. */
  function Held(lastProgress: string): seq<string> {
    if lastProgress == "" then [] else [lastProgress]
  }

  method FoldProgress(lines: seq<string>) returns (result: seq<string>)
    ensures result == Folded(lines)
  {
    hide IsProgress, Folded;
    result := [];
    var lastProgress := "";
    var i := 0;
    assert Held("") + lines[0..] == lines;
    while i < |lines|
      invariant 0 <= i <= |lines|
      invariant lastProgress != "" ==> IsProgress(lastProgress)
      invariant Folded(lines) == result + Folded(Held(lastProgress) + lines[i..])
    {
      var line := lines[i];
      FoldNext(lastProgress, lines[i..]);
      ProgressIsNotEmpty(line);
      assert lines[i..][1..] == lines[i + 1..];
      assert Held("") + lines[i + 1..] == lines[i + 1..];
      if IsProgress(line) {
        lastProgress := line;
        i := i + 1;
        continue;
      }
      if lastProgress != "" {
        result := result + [lastProgress];
        lastProgress := "";
      }
      result := result + [line];
      i := i + 1;
    }
    assert Held(lastProgress) + lines[|lines|..] == Held(lastProgress);
    FoldHeld(lastProgress);
    if lastProgress != "" {
      result := result + [lastProgress];
    }
  }

  lemma FoldHeld(lastProgress: string)
    ensures Folded(Held(lastProgress)) == Held(lastProgress)
  {
    hide IsProgress;
    if lastProgress != "" {
      assert [lastProgress][1..] == [];
      assert Folded([]) == [];
    }
  }

  lemma FoldNext(lastProgress: string, rest: seq<string>)
    requires rest != [] && (lastProgress != "" ==> IsProgress(lastProgress))
    ensures Folded(Held(lastProgress) + rest) ==
        if IsProgress(rest[0]) then Folded([rest[0]] + rest[1..])
        else Held(lastProgress) + [rest[0]] + Folded(rest[1..])
  {
    hide IsProgress;
    assert [rest[0]] + rest[1..] == rest;
    if lastProgress == "" {
      assert Held("") + rest == rest;
      assert Held("") + [rest[0]] == [rest[0]];
    } else {
      var s := [lastProgress] + rest;
      assert s[1..] == rest && s[0] == lastProgress && s[1] == rest[0];
      assert [lastProgress] + ([rest[0]] + Folded(rest[1..])) == [lastProgress] + [rest[0]] + Folded(rest[1..]);
    }
  }

  // ----- Each maximal run of progress lines leaves its last line

  predicate AllProgress(lines: seq<string>) {
    forall line :: line in lines ==> IsProgress(line)
  }

  lemma {:induction false} RunLeavesLast(run: seq<string>, rest: seq<string>)
    requires run != [] && AllProgress(run)
    requires rest != [] ==> !IsProgress(rest[0])
    ensures Folded(run + rest) == [run[|run| - 1]] + Folded(rest)
    decreases |run|
  {
    hide IsProgress;
    assert (run + rest)[1..] == run[1..] + rest;
    if |run| > 1 {
      assert run[1] in run && run[0] in run;
      RunLeavesLast(run[1..], rest);
    } else {
      assert run[1..] + rest == rest;
    }
  }

  lemma {:induction false} FoldApart(before: seq<string>, after: seq<string>)
    requires before != [] && !IsProgress(before[|before| - 1])
    ensures Folded(before + after) == Folded(before) + Folded(after)
    decreases |before|
  {
    hide IsProgress;
    assert (before + after)[1..] == before[1..] + after;
    if |before| > 1 {
      FoldApart(before[1..], after);
      assert (before + after)[1] == before[1];
    } else {
      assert before[1..] + after == after;
      assert Folded(before[1..]) == [];
    }
  }

  /** Folding replaces every maximal run by its last line and treats what is around it separately. */
  lemma MaximalRun(before: seq<string>, run: seq<string>, after: seq<string>)
    requires run != [] && AllProgress(run)
    requires before != [] ==> !IsProgress(before[|before| - 1])
    requires after != [] ==> !IsProgress(after[0])
    ensures Folded(before + run + after) == Folded(before) + [run[|run| - 1]] + Folded(after)
  {
    hide IsProgress, Folded, AllProgress;
    var last := [run[|run| - 1]];
    assert before + run + after == before + (run + after);
    RunLeavesLast(run, after);
    if before == [] {
      assert before + (run + after) == run + after;
      assert Folded(before) == [] by { FoldHeld(""); }
      assert [] + last + Folded(after) == last + Folded(after);
    } else {
      FoldApart(before, run + after);
      assert Folded(before) + (last + Folded(after)) == Folded(before) + last + Folded(after);
    }
  }

  /** Without progress lines nothing changes. */
  lemma {:induction false} NothingToFold(lines: seq<string>)
    requires forall line :: line in lines ==> !IsProgress(line)
    ensures Folded(lines) == lines
  {
    hide IsProgress;
    if lines != [] {
      assert lines[0] in lines;
      NothingToFold(lines[1..]);
    }
  }

  // ----- Normalised logs

  /** Carriage returns start a new line. */
  function BreakLines(value: string): (r: string)
    ensures |r| == |value|
  {
    seq(|value|, i requires 0 <= i < |value| => if value[i] == '\r' then '\n' else value[i])
  }

  /** The text shown, from logs whose local paths were redacted by the given function. */
  function NormalizeLogs(redact: string -> string, value: string): string {
    Trim(Join(Folded(Split(redact(BreakLines(value)), '\n')), "\n"))
  }

  /** The lines of the normalised logs are, up to white space around the whole, the folded lines of the redacted text,
      where a carriage return ends a line as a line feed does. */
  lemma NormalizedLines(redact: string -> string, value: string) returns (text: string)
    ensures Split(text, '\n') == Folded(Split(redact(BreakLines(value)), '\n'))
    ensures NormalizeLogs(redact, value) == Trim(text)
    ensures '\r' !in BreakLines(value)
    ensures forall i :: 0 <= i < |value| ==>
      BreakLines(value)[i] == if value[i] in {'\r', '\n'} then '\n' else value[i]
  {
    hide Split, Join, Trim, IsProgress;
    var lines := Split(redact(BreakLines(value)), '\n');
    text := Join(Folded(lines), "\n");
    FoldedLines(lines);
    SplitJoin(Folded(lines), '\n');
  }

  lemma {:induction false} FoldedLines(lines: seq<string>)
    ensures forall line :: line in Folded(lines) ==> line in lines
    ensures lines != [] ==> Folded(lines) != []
  {
    hide IsProgress;
    if lines != [] { FoldedLines(lines[1..]); }
  }

  // ----- The panel

  datatype Node = TextNode(text: string) | Row(index: nat, line: string)

  const LOADING := TextNode("Loading build logs...")
  const NO_LOGS := TextNode("No build logs were written for this deployment yet.")
  const NO_MATCH := TextNode("No matching log lines.")
  const FAILED := TextNode("Could not load build logs.")

  predicate Contains(s: string, part: string) {
    part <= s || (s != "" && Contains(s[1..], part))
  }

  /** Rows for lines[from..], numbered by their place in lines. */
  function RowsFrom(lines: seq<string>, from: nat): seq<Node>
    requires from <= |lines|
    decreases |lines| - from
  {
    if from == |lines| then [] else [Row(from, lines[from])] + RowsFrom(lines, from + 1)
  }

  function MatchingRows(lines: seq<string>, query: string, from: nat): seq<Node>
    requires from <= |lines|
    decreases |lines| - from
  {
    if from == |lines| then []
    else (if Contains(Lower(lines[from]), query) then [Row(from, lines[from])] else [])
         + MatchingRows(lines, query, from + 1)
  }

  /** The panel built from nothing out of the logs and the search text. */
  function FullRebuild(normalized: string, query: string): seq<Node> {
    if normalized == "" then [NO_LOGS]
    else
      var lines := Split(normalized, '\n');
      if query != "" then
        var rows := MatchingRows(lines, query, 0);
        if rows == [] then [NO_MATCH] else rows
      else RowsFrom(lines, 0)
  }

  /** What the page shows and the lines the script believes it shows. */
  datatype View = View(children: seq<Node>, rendered: seq<string>)

  function CommonPrefix(a: seq<string>, b: seq<string>): (n: nat)
    ensures n <= |a| && n <= |b| && a[..n] == b[..n]
    ensures n < |a| && n < |b| ==> a[n] != b[n]
  {
    if a == [] || b == [] || a[0] != b[0] then 0 else 1 + CommonPrefix(a[1..], b[1..])
  }

  function Take(nodes: seq<Node>, n: nat): seq<Node> {
    if n < |nodes| then nodes[..n] else nodes
  }

  // ----- What a search shows

  /** The part stands somewhere in the text. */
  lemma {:induction false} ContainsIs(s: string, part: string)
    ensures Contains(s, part) <==> exists a, b :: s == a + part + b
  {
    if part <= s {
      assert s == "" + part + s[|part|..];
    } else if s != "" {
      ContainsIs(s[1..], part);
      if a, b :| s[1..] == a + part + b {
        assert s == ([s[0]] + a) + part + b;
      }
    }
    if !Contains(s, part) {
      forall a, b | s == a + part + b ensures false { FoundLater(s, a, part, b); }
    }
  }

  lemma FoundLater(s: string, a: string, part: string, b: string)
    requires s == a + part + b && !(part <= s)
    ensures s != "" && exists a' :: s[1..] == a' + part + b
  {
    assert a == "" ==> s == part + b;
    assert s[1..] == a[1..] + part + b;
  }

  /** A search shows the lines, and only the lines, in which the text occurs in any case, under their own numbers. */
  lemma {:induction false} MatchesExactly(lines: seq<string>, query: string, from: nat, node: Node)
    requires from <= |lines|
    ensures node in MatchingRows(lines, query, from) <==>
      && node.Row? && from <= node.index < |lines| && node.line == lines[node.index]
      && exists a, b :: Lower(node.line) == a + query + b
    decreases |lines| - from
  {
    hide Contains, Lower;
    if from < |lines| {
      MatchesExactly(lines, query, from + 1, node);
      ContainsIs(Lower(lines[from]), query);
    }
  }

  lemma {:induction false} RowsLength(lines: seq<string>, from: nat)
    requires from <= |lines|
    ensures |RowsFrom(lines, from)| == |lines| - from
    decreases |lines| - from
  {
    if from < |lines| { RowsLength(lines, from + 1); }
  }

  lemma {:induction false} RowAt(lines: seq<string>, from: nat, i: nat)
    requires from + i < |lines|
    ensures i < |RowsFrom(lines, from)| && RowsFrom(lines, from)[i] == Row(from + i, lines[from + i])
    decreases i
  {
    RowsLength(lines, from);
    if i > 0 { RowAt(lines, from + 1, i - 1); }
  }

  /** Without a search there is one row for every line, under its own number. */
  lemma RowsExactly(lines: seq<string>)
    ensures RowsFrom(lines, 0) == seq(|lines|, i requires 0 <= i < |lines| => Row(i, lines[i]))
  {
    hide RowsFrom;
    RowsLength(lines, 0);
    forall i | 0 <= i < |lines| ensures RowsFrom(lines, 0)[i] == Row(i, lines[i]) { RowAt(lines, 0, i); }
  }

  /** What a rebuilt panel shows: a notice when there are no logs or no line matches, and otherwise rows. */
  lemma RebuildExactly(normalized: string, query: string)
    ensures var shown, lines := FullRebuild(normalized, query), Split(normalized, '\n');
      && (shown == [NO_LOGS] <==> normalized == "")
      && (shown == [NO_MATCH] <==>
            normalized != "" && query != "" && forall line :: line in lines ==> !Contains(Lower(line), query))
      && (normalized != "" && query == "" ==> shown == RowsFrom(lines, 0))
      && (normalized != "" && query != "" && shown != [NO_MATCH] ==> shown == MatchingRows(lines, query, 0))
  {
    hide Split, Contains, Lower;
    var lines := Split(normalized, '\n');
    RowsExactly(lines);
    MatchesAreRows(lines, query, 0);
    NoMatches(lines, query, 0);
    assert lines[0..] == lines;
    var rows := MatchingRows(lines, query, 0);
    assert rows != [] ==> rows[0] in rows;
  }

  lemma {:induction false} NoMatches(lines: seq<string>, query: string, from: nat)
    requires from <= |lines|
    ensures MatchingRows(lines, query, from) == [] <==>
      forall line :: line in lines[from..] ==> !Contains(Lower(line), query)
    decreases |lines| - from
  {
    hide Contains, Lower;
    if from < |lines| {
      NoMatches(lines, query, from + 1);
      assert lines[from..] == [lines[from]] + lines[from + 1..];
    }
  }

  /** In their order. */
  lemma {:induction false} MatchesRise(lines: seq<string>, query: string, from: nat, i: nat, j: nat)
    requires from <= |lines| && i < j < |MatchingRows(lines, query, from)|
    ensures var rows := MatchingRows(lines, query, from);
      rows[i].Row? && rows[j].Row? && from <= rows[i].index < rows[j].index
    decreases |lines| - from
  {
    hide Contains, Lower;
    if Contains(Lower(lines[from]), query) {
      var later := MatchingRows(lines, query, from + 1);
      if i == 0 {
        assert later[j - 1] in later;
        MatchesExactly(lines, query, from + 1, later[j - 1]);
      } else {
        MatchesRise(lines, query, from + 1, i - 1, j - 1);
      }
    } else {
      MatchesRise(lines, query, from + 1, i, j);
    }
  }

  /** One incremental rendering: the view after renderLogs. */
  function Rendered(view: View, normalized: string, query: string): View {
    if normalized == "" || query != "" then View(FullRebuild(normalized, query), [])
    else
      var lines := Split(normalized, '\n');
      var common := CommonPrefix(lines, view.rendered);
      if common == |view.rendered| == |lines| then view
      else
        var kept :=
          if view.rendered == [] then []
          else if common < |view.rendered| then Take(view.children, common)
          else view.children;
        View(kept + RowsFrom(lines, common), lines)
  }

  // ----- Incremental rendering agrees with a full rebuild

  /** The script knows what the page shows, or knows that it does not. */
  predicate InSync(view: View) {
    view.rendered != [] ==> view.children == RowsFrom(view.rendered, 0)
  }

  lemma {:induction false} RowsSplit(lines: seq<string>, from: nat, at: nat)
    requires from <= at <= |lines|
    ensures RowsFrom(lines, from) == RowsFrom(lines[..at], from) + RowsFrom(lines, at)
    decreases at - from
  {
    if from == at {
      assert RowsFrom(lines[..at], at) == [];
    } else {
      RowsSplit(lines, from + 1, at);
    }
  }

  /** Keeping the common rows and appending the rest is building all rows. */
  lemma KeptRows(lines: seq<string>, rendered: seq<string>, common: nat)
    requires common <= |lines| && common <= |rendered| && lines[..common] == rendered[..common]
    ensures Take(RowsFrom(rendered, 0), common) + RowsFrom(lines, common) == RowsFrom(lines, 0)
  {
    RowsSplit(rendered, 0, common);
    RowsSplit(lines, 0, common);
    RowsLength(rendered[..common], 0);
    RowsLength(rendered, 0);
    assert rendered[..|rendered|] == rendered;
  }

  /** From a view in step every rendering shows the full rebuild, and stays in step. */
  lemma RenderedIsRebuild(view: View, normalized: string, query: string)
    requires InSync(view)
    ensures Rendered(view, normalized, query).children == FullRebuild(normalized, query)
    ensures InSync(Rendered(view, normalized, query))
  {
    hide RowsFrom, MatchingRows, Split;
    if normalized != "" && query == "" {
      var lines := Split(normalized, '\n');
      var common := CommonPrefix(lines, view.rendered);
      RowsLength(view.rendered, 0);
      KeptRows(lines, view.rendered, common);
      assert view.rendered == [] ==> [] + RowsFrom(lines, 0) == RowsFrom(lines, 0);
      assert lines[..|lines|] == lines && view.rendered[..|view.rendered|] == view.rendered;
    }
  }

  // ----- Runs of the panel

  datatype Panel = Panel(raw: string, view: View, loaded: bool, loading: bool, query: string)

  /** What happens to the panel: a load is asked for, its answer arrives or fails, the search text changes. */
  datatype Event = Begin(force: bool) | Arrive(logs: string) | Fail | Search(text: string)

  function Render(redact: string -> string, p: Panel): Panel {
    p.(view := Rendered(p.view, NormalizeLogs(redact, p.raw), Lower(Trim(p.query))))
  }

  function OnEvent(redact: string -> string, p: Panel, e: Event): Panel {
    match e
    case Begin(force) =>
      if p.loading || (p.loaded && !force) then p
      else p.(loading := true, view := if p.loaded then p.view else View([LOADING], []))
    case Arrive(logs) => Render(redact, p.(raw := logs)).(loaded := true, loading := false)
    case Fail => p.(view := View([FAILED], p.view.rendered), loading := false)
    case Search(text) => if p.loaded then Render(redact, p.(query := text)) else p.(query := text)
  }

  /** What the page ought to show once logs have been loaded. */
  predicate Faithful(redact: string -> string, p: Panel) {
    && InSync(p.view)
    && (p.loaded ==> p.view.children == FullRebuild(NormalizeLogs(redact, p.raw), Lower(Trim(p.query))))
  }

  function Run(redact: string -> string, p: Panel, events: seq<Event>): Panel
    decreases |events|
  {
    if events == [] then p else Run(redact, OnEvent(redact, p, events[0]), events[1..])
  }

  /** No refetch fails once logs have been shown. */
  predicate NoLateFailure(redact: string -> string, p: Panel, events: seq<Event>)
    decreases |events|
  {
    events != [] ==>
      && (events[0].Fail? ==> !p.loaded)
      && (events[0].Fail? ==> p.loading)
      && (events[0].Arrive? ==> p.loading)
      && NoLateFailure(redact, OnEvent(redact, p, events[0]), events[1..])
  }

  const START := Panel("", View([], []), false, false, "")

  lemma EventKeepsFaithful(redact: string -> string, p: Panel, e: Event)
    requires Faithful(redact, p) && (e.Fail? ==> !p.loaded && p.view.rendered == [])
    ensures Faithful(redact, OnEvent(redact, p, e))
  {
    hide NormalizeLogs, FullRebuild, Lower, Trim, Rendered;
    match e
    case Begin(_) =>
    case Arrive(logs) => RenderedIsRebuild(p.view, NormalizeLogs(redact, logs), Lower(Trim(p.query)));
    case Fail =>
    case Search(text) => RenderedIsRebuild(p.view, NormalizeLogs(redact, p.raw), Lower(Trim(text)));
  }

  /** Over every run without a late failure, the panel shows what a full rebuild would show. */
  lemma {:induction false} RunsAreFaithful(redact: string -> string, p: Panel, events: seq<Event>)
    requires Faithful(redact, p) && (!p.loaded ==> p.view.rendered == [])
    requires NoLateFailure(redact, p, events)
    ensures Faithful(redact, Run(redact, p, events))
    decreases |events|
  {
    hide Faithful, Rendered, NormalizeLogs, InSync;
    if events != [] {
      EventKeepsFaithful(redact, p, events[0]);
      RunsAreFaithful(redact, OnEvent(redact, p, events[0]), events[1..]);
    }
  }

  /** A load is asked for exactly when none is running and there are no logs yet or a refetch is forced; the spinner
      replaces the page only before the first logs, and an answer or a failure ends the load. */
  lemma LoadsOneAtATime(redact: string -> string, p: Panel, force: bool, logs: string)
    ensures var begun := OnEvent(redact, p, Begin(force));
      && (begun != p ==> !p.loading && begun.loading)
      && (!p.loading && (!p.loaded || force) ==> begun.loading)
      && (!p.loading && p.loaded && !force ==> begun == p)
      && (p.loaded ==> begun.view == p.view)
      && (begun.loading && !p.loading && !p.loaded ==> begun.view.children == [LOADING])
      && OnEvent(redact, begun, Begin(force)) == begun
      && !OnEvent(redact, begun, Fail).loading && OnEvent(redact, begun, Fail).loaded == p.loaded
      && OnEvent(redact, begun, Fail).view.children == [FAILED]
      && (var arrived := OnEvent(redact, begun, Arrive(logs));
            !arrived.loading && arrived.loaded && arrived.raw == logs && arrived.query == p.query)
  {
    hide NormalizeLogs, Rendered;
  }

  // ----- After a late failure

  /** The event renders the panel of an already loaded page. */
  predicate Renders(e: Event) {
    e.Arrive? || e.Search?
  }

  /** A rendering puts the panel right again after the lines r were on the page when a refetch failed. */
  predicate Clears(redact: string -> string, r: seq<string>, p: Panel) {
    var normalized := NormalizeLogs(redact, p.raw);
    r == [] || normalized == "" || Lower(Trim(p.query)) != "" || Split(normalized, '\n')[0] != r[0]
  }

  /** Some event of the run brings a rendering that puts the panel right. */
  predicate Recovers(redact: string -> string, p: Panel, r: seq<string>, events: seq<Event>)
    decreases |events|
  {
    && events != []
    && var after := OnEvent(redact, p, events[0]);
       (Renders(events[0]) && Clears(redact, r, after)) || Recovers(redact, after, r, events[1..])
  }

  /** The failure message stands above rows whose first line is still the one of r. */
  predicate Stale(view: View, r: seq<string>) {
    && view.children != [] && view.children[0] == FAILED
    && (r == [] <==> view.rendered == []) && (r != [] ==> view.rendered[0] == r[0])
  }

  lemma RebuildShowsNoFailure(normalized: string, query: string)
    ensures FullRebuild(normalized, query) != [] && FullRebuild(normalized, query)[0] != FAILED
  {
    hide Split, Contains, Lower;
    if normalized != "" {
      var lines := Split(normalized, '\n');
      if query != "" {
        MatchesAreRows(lines, query, 0);
        var rows := MatchingRows(lines, query, 0);
        assert rows != [] ==> rows[0] in rows;
      }
    }
  }

  lemma {:induction false} MatchesAreRows(lines: seq<string>, query: string, from: nat)
    requires from <= |lines|
    ensures forall node :: node in MatchingRows(lines, query, from) ==> node.Row?
    decreases |lines| - from
  {
    hide Contains, Lower;
    if from < |lines| { MatchesAreRows(lines, query, from + 1); }
  }

  /** A rendering of a stale view is right and in step when it clears, and stays stale otherwise. */
  lemma StaleRendering(view: View, r: seq<string>, normalized: string, query: string)
    requires Stale(view, r)
    ensures var after := Rendered(view, normalized, query);
      if r == [] || normalized == "" || query != "" || Split(normalized, '\n')[0] != r[0]
      then InSync(after) && after.children == FullRebuild(normalized, query)
      else Stale(after, r)
  {
    hide MatchingRows, Split, RowsFrom;
    if normalized != "" && query == "" {
      var lines := Split(normalized, '\n');
      assert [] + RowsFrom(lines, 0) == RowsFrom(lines, 0);
      assert view.children[..0] == [];
    }
  }

  lemma LateEvent(redact: string -> string, p: Panel, r: seq<string>, e: Event)
    requires p.loaded && Stale(p.view, r) && !e.Fail?
    ensures var after := OnEvent(redact, p, e);
      && after.loaded
      && if Renders(e) && Clears(redact, r, after) then Faithful(redact, after) else Stale(after.view, r)
  {
    hide NormalizeLogs, FullRebuild, Lower, Trim, Rendered, Stale, Split;
    match e
    case Begin(_) =>
    case Arrive(logs) => StaleRendering(p.view, r, NormalizeLogs(redact, logs), Lower(Trim(p.query)));
    case Search(text) => StaleRendering(p.view, r, NormalizeLogs(redact, p.raw), Lower(Trim(text)));
    case Fail =>
  }

  lemma {:induction false} FaithfulGoesOn(redact: string -> string, p: Panel, events: seq<Event>)
    requires Faithful(redact, p) && p.loaded && forall e :: e in events ==> !e.Fail?
    ensures Faithful(redact, Run(redact, p, events)) && Run(redact, p, events).loaded
    decreases |events|
  {
    hide Faithful, Rendered, NormalizeLogs, InSync;
    if events != [] {
      assert events[0] in events && forall e :: e in events[1..] ==> e in events;
      EventKeepsFaithful(redact, p, events[0]);
      FaithfulGoesOn(redact, OnEvent(redact, p, events[0]), events[1..]);
    }
  }

  lemma {:induction false} StaleRun(redact: string -> string, p: Panel, r: seq<string>, events: seq<Event>)
    requires p.loaded && Stale(p.view, r) && forall e :: e in events ==> !e.Fail?
    ensures var after := Run(redact, p, events);
      after.loaded && if Recovers(redact, p, r, events) then Faithful(redact, after) else Stale(after.view, r)
    decreases |events|
  {
    hide Faithful, OnEvent, Stale, Clears, Renders;
    if events != [] {
      var e, after := events[0], OnEvent(redact, p, events[0]);
      assert e in events && forall x :: x in events[1..] ==> x in events;
      LateEvent(redact, p, r, e);
      if Renders(e) && Clears(redact, r, after) {
        FaithfulGoesOn(redact, after, events[1..]);
      } else {
        StaleRun(redact, after, r, events[1..]);
      }
    }
  }

  /** After a refetch has failed, and until another fails: the panel shows what a full rebuild would show if and only if
      some rendering since then was filtered, was empty, or did not begin with the line that the unfiltered page began
      with before the failure. */
  lemma RightAgainExactly(redact: string -> string, p: Panel, events: seq<Event>)
    requires p.loaded && forall e :: e in events ==> !e.Fail?
    ensures var failed := OnEvent(redact, p, Fail);
      var after := Run(redact, failed, events);
      var rebuilt := FullRebuild(NormalizeLogs(redact, after.raw), Lower(Trim(after.query)));
      after.view.children == rebuilt <==> Recovers(redact, failed, p.view.rendered, events)
  {
    hide Run, NormalizeLogs, FullRebuild, Lower, Trim, Recovers, InSync;
    var failed := OnEvent(redact, p, Fail);
    var after := Run(redact, failed, events);
    StaleRun(redact, failed, p.view.rendered, events);
    RebuildShowsNoFailure(NormalizeLogs(redact, after.raw), Lower(Trim(after.query)));
  }

  // ----- The script itself

  class LogPanel {
    var rawLogs: string
    var renderedLines: seq<string>
    var children: seq<Node>
    var loaded: bool
    var loading: bool
    var search: string
    const redact: string -> string

    constructor (redact: string -> string)
      ensures State() == START && this.redact == redact
    {
      this.redact := redact;
      rawLogs, renderedLines, children, loaded, loading, search := "", [], [], false, false, "";
    }

    ghost function State(): Panel
      reads this
    {
      Panel(rawLogs, View(children, renderedLines), loaded, loading, search)
    }

    method RenderLogs()
      modifies this`children, this`renderedLines
      ensures State() == Render(redact, old(State()))
    {
      hide NormalizeLogs, Lower, Trim, RowsFrom, MatchingRows, CommonPrefix, Split;
      var query := Lower(Trim(search));
      var normalized := NormalizeLogs(redact, rawLogs);
      if normalized == "" {
        children := [NO_LOGS];
        renderedLines := [];
        return;
      }
      var lines := Split(normalized, '\n');
      if query != "" {
        var rows := FilteredRows(lines, query);
        renderedLines := [];
        children := if rows == [] then [NO_MATCH] else rows;
        return;
      }
      var common := CountCommon(lines, renderedLines);
      if common == |renderedLines| && |lines| == |renderedLines| { return; }
      if renderedLines == [] {
        children := [];
      } else if common < |renderedLines| {
        while |children| > common
          invariant Take(children, common) == Take(old(children), common)
        {
          children := children[..|children| - 1];
        }
      }
      var fragment := RowsAfter(lines, common);
      children := children + fragment;
      renderedLines := lines;
    }

    method BeginLoad(force: bool) returns (started: bool)
      modifies this
      ensures State() == OnEvent(redact, old(State()), Begin(force))
      ensures started <==> !old(loading) && (force || !old(loaded))
    {
      if loading || (loaded && !force) { return false; }
      loading := true;
      if !loaded {
        children := [LOADING];
        renderedLines := [];
      }
      started := true;
    }

    method LogsArrive(logs: string)
      modifies this
      ensures State() == OnEvent(redact, old(State()), Arrive(logs))
    {
      hide NormalizeLogs, Lower, Trim, Rendered;
      rawLogs := logs;
      RenderLogs();
      loaded := true;
      loading := false;
    }

    method LoadFails()
      modifies this
      ensures State() == OnEvent(redact, old(State()), Fail)
    {
      children := [FAILED];
      loading := false;
    }

    method EditSearch(text: string)
      modifies this
      ensures State() == OnEvent(redact, old(State()), Search(text))
    {
      hide NormalizeLogs, Lower, Trim, Rendered;
      search := text;
      if loaded { RenderLogs(); }
    }
  }

  method CountCommon(a: seq<string>, b: seq<string>) returns (common: nat)
    ensures common == CommonPrefix(a, b)
  {
    common := 0;
    while common < |a| && common < |b| && a[common] == b[common]
      invariant common <= |a| && common <= |b|
      invariant CommonPrefix(a, b) == common + CommonPrefix(a[common..], b[common..])
    {
      assert a[common..][1..] == a[common + 1..] && b[common..][1..] == b[common + 1..];
      common := common + 1;
    }
  }

  method RowsAfter(lines: seq<string>, from: nat) returns (rows: seq<Node>)
    requires from <= |lines|
    ensures rows == RowsFrom(lines, from)
  {
    rows := [];
    var index: nat := from;
    while index < |lines|
      invariant from <= index <= |lines|
      invariant RowsFrom(lines, from) == rows + RowsFrom(lines, index)
    {
      rows := rows + [Row(index, lines[index])];
      index := index + 1;
    }
  }

  method FilteredRows(lines: seq<string>, query: string) returns (rows: seq<Node>)
    ensures rows == MatchingRows(lines, query, 0)
  {
    rows := [];
    var index: nat := 0;
    while index < |lines|
      invariant index <= |lines|
      invariant MatchingRows(lines, query, 0) == rows + MatchingRows(lines, query, index)
    {
      if Contains(Lower(lines[index]), query) {
        rows := rows + [Row(index, lines[index])];
      }
      index := index + 1;
    }
  }
}
