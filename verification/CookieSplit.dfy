/** Undoing the comma join of Set-Cookie headers without breaking the commas inside a cookie. */
module CookieSplit {
  import opened Text

  /** What the look-ahead meets first: '=', ';', or the end of the text (a blank). */
  function FirstMark(s: string): (c: char)
    ensures c in {'=', ';', ' '}
  {
    if s == "" then ' '
    else if s[0] == '=' || s[0] == ';' then s[0]
    else FirstMark(s[1..])
  }

  /** A comma separates two cookies when '=' comes before ';' in all the text after it. */
  predicate Separates(s: string, i: nat)
    requires i < |s|
  {
    s[i] == ',' && FirstMark(s[i + 1..]) == '='
  }

  /** The first separating comma from i on, |s| when there is none. */
  function NextSeparator(s: string, i: nat): (r: nat)
    requires i <= |s|
    ensures i <= r <= |s|
    ensures r < |s| ==> Separates(s, r)
    ensures forall k :: i <= k < r ==> !Separates(s, k)
    decreases |s| - i
  {
    if i == |s| || Separates(s, i) then i else NextSeparator(s, i + 1)
  }

  function SkipBlanks(s: string): (r: string)
    ensures |r| <= |s|
  {
    if s != "" && s[0] == ' ' then SkipBlanks(s[1..]) else s
  }

  function NonEmpty(part: string): seq<string> {
    if part == "" then [] else [part]
  }

  /** The trimmed pieces between separating commas, without empty ones. */
  function Pieces(s: string): seq<string>
    decreases |s|
  {
    var p := NextSeparator(s, 0);
    if p == |s| then NonEmpty(Trim(s))
    else NonEmpty(Trim(s[..p])) + Pieces(SkipBlanks(s[p + 1..]))
  }

  /** The look-ahead from the comma at i: past spaces, then to the next mark or the end. */
  method LookAhead(s: string, i: nat) returns (j: nat)
    requires i < |s| && s[i] == ','
    ensures (j < |s| && s[j] == '=') <==> Separates(s, i)
  {
    j := i + 1;
    while j < |s| && s[j] == ' '
      invariant i + 1 <= j <= |s|
      invariant FirstMark(s[i + 1..]) == FirstMark(s[j..])
    {
      assert s[j..][1..] == s[j + 1..];
      j := j + 1;
    }
    while j < |s| && s[j] != '=' && s[j] != ';'
      invariant i + 1 <= j <= |s|
      invariant FirstMark(s[i + 1..]) == FirstMark(s[j..])
    {
      assert s[j..][1..] == s[j + 1..];
      j := j + 1;
    }
  }

  /** The start of the cookie after the comma at i. */
  method NextStart(s: string, i: nat) returns (start: nat)
    requires i < |s|
    ensures i < start <= |s| && s[start..] == SkipBlanks(s[i + 1..])
  {
    start := i + 1;
    while start < |s| && s[start] == ' '
      invariant i + 1 <= start <= |s|
      invariant SkipBlanks(s[i + 1..]) == SkipBlanks(s[start..])
    {
      assert s[start..][1..] == s[start + 1..];
      start := start + 1;
    }
  }

  method SplitSetCookieHeader(setCookie: string) returns (result: seq<string>)
    ensures result == Pieces(setCookie)
  {
    hide Pieces, Separates, NextSeparator, FirstMark, SkipBlanks, Trim, NonEmpty;
    EmptyHeader();
    if setCookie == "" { return []; }
    var s := setCookie;
    result := [];
    var start, i := 0, 0;
    assert s[0..] == s;
    while i < |s|
      invariant 0 <= start <= i <= |s|
      invariant Pieces(s) == result + Pieces(s[start..])
      invariant NextSeparator(s[start..], 0) == NextSeparator(s[start..], i - start)
    {
      var rest := s[start..];
      SameComma(s, start, i);
      if s[i] == ',' {
        var j := LookAhead(s, i);
        if j < |s| && s[j] == '=' {
          var part := Trim(s[start..i]);
          if part != "" { result := result + [part]; }
          PiecesStep(rest, i - start);
          assert rest[..i - start] == s[start..i];
          assert rest[i - start + 1..] == s[i + 1..];
          start := NextStart(s, i);
          i := start;
          continue;
        }
      }
      SeparatorAfter(rest, i - start);
      i := i + 1;
    }
    LastPiece(s[start..]);
    var last := Trim(s[start..]);
    if last != "" { result := result + [last]; }
  }

  lemma EmptyHeader()
    ensures Pieces("") == []
  {
  }

  lemma SameComma(s: string, start: nat, i: nat)
    requires start <= i < |s|
    ensures Separates(s[start..], i - start) == Separates(s, i)
    ensures s[i] != ',' ==> !Separates(s, i)
  {
    assert s[start..][i - start + 1..] == s[i + 1..];
  }

  lemma SeparatorAfter(s: string, i: nat)
    requires i < |s| && !Separates(s, i)
    ensures NextSeparator(s, i) == NextSeparator(s, i + 1)
  {
  }

  lemma PiecesStep(s: string, i: nat)
    requires i < |s| && Separates(s, i) && NextSeparator(s, 0) == NextSeparator(s, i)
    ensures Pieces(s) == (if Trim(s[..i]) == "" then [] else [Trim(s[..i])]) + Pieces(SkipBlanks(s[i + 1..]))
  {
    hide Trim, SkipBlanks, Separates;
  }

  lemma LastPiece(s: string)
    requires NextSeparator(s, 0) == NextSeparator(s, |s|)
    ensures Pieces(s) == if Trim(s) == "" then [] else [Trim(s)]
  {
    hide Trim, SkipBlanks, Separates;
  }

  // ----- What the look-ahead finds, by position

  /** Somewhere the mark stands with no other mark before it. */
  predicate ComesFirst(s: string, mark: char, other: char) {
    exists k :: 0 <= k < |s| && s[k] == mark && other !in s[..k]
  }

  predicate EqualsFirst(s: string) {
    ComesFirst(s, '=', ';')
  }

  predicate SemicolonFirst(s: string) {
    ComesFirst(s, ';', '=')
  }

  lemma {:induction false} FirstMarkIs(s: string)
    ensures FirstMark(s) == '=' <==> EqualsFirst(s)
    ensures FirstMark(s) == ';' <==> SemicolonFirst(s)
    ensures FirstMark(s) == ' ' <==> '=' !in s && ';' !in s
  {
    hide ComesFirst;
    if s == "" {
      NoMark();
    } else {
      FirstMarkIs(s[1..]);
      assert s == [s[0]] + s[1..];
      if s[0] == '=' || s[0] == ';' {
        MarkHere(s, if s[0] == '=' then ';' else '=');
      } else {
        MarkLater(s, '=', ';');
        MarkLater(s, ';', '=');
      }
    }
  }

  lemma NoMark()
    ensures !EqualsFirst("") && !SemicolonFirst("")
  {
  }

  lemma MarkHere(s: string, other: char)
    requires s != "" && s[0] != other
    ensures ComesFirst(s, s[0], other) && !ComesFirst(s, other, s[0])
  {
    assert s[..0] == "";
    forall k | 0 < k < |s| ensures s[0] in s[..k] {
      assert s[..k][0] == s[0];
    }
  }

  /** Skipping another character does not change which of two marks comes first. */
  lemma MarkLater(s: string, mark: char, other: char)
    requires s != "" && s[0] != mark && s[0] != other
    ensures ComesFirst(s, mark, other) <==> ComesFirst(s[1..], mark, other)
  {
    var t := s[1..];
    if ComesFirst(s, mark, other) {
      var k :| 0 <= k < |s| && s[k] == mark && other !in s[..k];
      assert forall c :: c in t[..k - 1] ==> c in s[..k];
      assert t[k - 1] == mark;
    }
    if ComesFirst(t, mark, other) {
      var k :| 0 <= k < |t| && t[k] == mark && other !in t[..k];
      assert s[..k + 1] == [s[0]] + t[..k];
      assert s[k + 1] == mark;
    }
  }

  /** A comma separates when some '=' behind it has no ';' in between. */
  lemma SeparatesByPosition(s: string, i: nat)
    requires i < |s|
    ensures Separates(s, i) <==>
      s[i] == ',' && exists k :: i < k < |s| && s[k] == '=' && ';' !in s[i + 1..k]
  {
    var rest := s[i + 1..];
    FirstMarkIs(rest);
    forall k | 0 <= k < |rest| ensures rest[..k] == s[i + 1..i + 1 + k] && rest[k] == s[i + 1 + k] {
    }
    if EqualsFirst(rest) {
      var k :| 0 <= k < |rest| && rest[k] == '=' && ';' !in rest[..k];
      assert s[i + 1 + k] == '=' && ';' !in s[i + 1..i + 1 + k];
    }
    if k :| i < k < |s| && s[k] == '=' && ';' !in s[i + 1..k] {
      assert rest[k - i - 1] == '=' && ';' !in rest[..k - i - 1];
    }
  }

  // ----- The list comes back, exactly when every comma is told apart

  const SEPARATOR := ", "

  predicate IsCookie(c: string) {
    c != "" && Trimmed(c)
  }

  /** No comma inside c separates, when tail follows c. */
  predicate Unbroken(c: string, tail: string) {
    forall i :: 0 <= i < |c| && c[i] == ',' ==> !EqualsFirst(c[i + 1..] + tail)
  }

  /** What follows the first cookie of a joined list. */
  function Tail(cookies: seq<string>): string
    requires cookies != []
  {
    if |cookies| == 1 then "" else SEPARATOR + Join(cookies[1..], SEPARATOR)
  }

  predicate Rejoinable(cookies: seq<string>) {
    cookies != [] ==>
      && IsCookie(cookies[0])
      && Unbroken(cookies[0], Tail(cookies))
      && (|cookies| > 1 ==> EqualsFirst(Join(cookies[1..], SEPARATOR)))
      && Rejoinable(cookies[1..])
  }

  lemma FirstMarkOfConcat(a: string, b: string)
    ensures FirstMark(a + b) == if FirstMark(a) == ' ' then FirstMark(b) else FirstMark(a)
  {
    if a == "" {
      assert a + b == b;
    } else {
      assert (a + b)[1..] == a[1..] + b;
    }
  }

  lemma JoinIsHeadTail(cookies: seq<string>)
    requires cookies != []
    ensures Join(cookies, SEPARATOR) == cookies[0] + Tail(cookies)
  {
  }

  /** A list of cookies joined starts with its first cookie's first character. */
  lemma JoinStarts(cookies: seq<string>)
    requires cookies != [] && IsCookie(cookies[0])
    ensures var s := Join(cookies, SEPARATOR);
      s != "" && !IsSpace(s[0]) && SkipBlanks(s) == s && SkipBlanks(" " + s) == s
  {
    JoinIsHeadTail(cookies);
    var s := Join(cookies, SEPARATOR);
    assert s[0] == cookies[0][0];
    assert (" " + s)[1..] == s;
  }

  /** Inside the first cookie the joined text separates where the cookie followed by its tail does. */
  lemma InnerCommas(c: string, tail: string)
    ensures Unbroken(c, tail) <==> forall i :: 0 <= i < |c| ==> !Separates(c + tail, i)
  {
    forall i | 0 <= i < |c|
      ensures Separates(c + tail, i) <==> c[i] == ',' && EqualsFirst(c[i + 1..] + tail)
    {
      assert (c + tail)[i + 1..] == c[i + 1..] + tail;
      FirstMarkIs(c[i + 1..] + tail);
    }
    if !Unbroken(c, tail) {
      var i :| 0 <= i < |c| && c[i] == ',' && EqualsFirst(c[i + 1..] + tail);
      assert Separates(c + tail, i);
    }
  }

  lemma FirstCut(s: string, k: nat)
    requires k <= |s| && (forall i :: 0 <= i < k ==> !Separates(s, i)) && (k < |s| ==> Separates(s, k))
    ensures NextSeparator(s, 0) == k
  {
  }

  /** At the join between two cookies. */
  lemma JoinedComma(c: string, rest: string)
    ensures var s := c + (SEPARATOR + rest);
      s[|c| + 1..] == " " + rest && (Separates(s, |c|) <==> EqualsFirst(rest))
  {
    var s := c + (SEPARATOR + rest);
    assert s[|c| + 1..] == " " + rest;
    assert (" " + rest)[1..] == rest;
    FirstMarkIs(rest);
  }

  lemma JoinOfNone()
    ensures Join([], SEPARATOR) == ""
  {
  }

  lemma OnePiece(c: string)
    requires IsCookie(c) && Unbroken(c, "")
    ensures Pieces(c) == [c]
  {
    hide Pieces, Separates, FirstMark, EqualsFirst, Trim, Unbroken, NextSeparator;
    InnerCommas(c, "");
    assert c + "" == c;
    FirstCut(c, |c|);
    LastPiece(c);
    assert Trim(c) == c;
  }

  lemma HeadPiece(c: string, rest: string)
    requires IsCookie(c) && Unbroken(c, SEPARATOR + rest) && EqualsFirst(rest)
    requires SkipBlanks(" " + rest) == rest
    ensures Pieces(c + (SEPARATOR + rest)) == [c] + Pieces(rest)
  {
    hide Pieces, Separates, FirstMark, EqualsFirst, Trim, SkipBlanks, Unbroken, NextSeparator;
    var s := c + (SEPARATOR + rest);
    InnerCommas(c, SEPARATOR + rest);
    JoinedComma(c, rest);
    FirstCut(s, |c|);
    assert s[..|c|] == c && Trim(c) == c;
    PiecesStep(s, |c|);
  }

  lemma {:induction false} SplitsRejoinable(cookies: seq<string>)
    requires Rejoinable(cookies)
    ensures Pieces(Join(cookies, SEPARATOR)) == cookies
    decreases |cookies|
  {
    hide Pieces, EqualsFirst, SkipBlanks, Unbroken, Join, IsCookie;
    if cookies == [] {
      EmptyHeader();
      JoinOfNone();
    } else {
      JoinIsHeadTail(cookies);
      if |cookies| == 1 {
        assert cookies[0] + "" == cookies[0];
        OnePiece(cookies[0]);
      } else {
        JoinStarts(cookies[1..]);
        HeadPiece(cookies[0], Join(cookies[1..], SEPARATOR));
        SplitsRejoinable(cookies[1..]);
      }
    }
  }

  // ----- Only rejoinable lists come back: commas are conserved

  function Commas(s: string): nat {
    if s == "" then 0 else (if s[0] == ',' then 1 else 0) + Commas(s[1..])
  }

  function TotalCommas(parts: seq<string>): nat {
    if parts == [] then 0 else Commas(parts[0]) + TotalCommas(parts[1..])
  }

  function Cuts(s: string): nat
    decreases |s|
  {
    var p := NextSeparator(s, 0);
    if p == |s| then 0 else 1 + Cuts(SkipBlanks(s[p + 1..]))
  }

  lemma {:induction false} CommasOfConcat(a: string, b: string)
    ensures Commas(a + b) == Commas(a) + Commas(b)
  {
    if a == "" {
      assert a + b == b;
    } else {
      assert (a + b)[1..] == a[1..] + b;
      CommasOfConcat(a[1..], b);
    }
  }

  lemma {:induction false} CommasOfTotal(a: seq<string>, b: seq<string>)
    ensures TotalCommas(a + b) == TotalCommas(a) + TotalCommas(b)
  {
    if a == [] {
      assert a + b == b;
    } else {
      assert (a + b)[1..] == a[1..] + b;
      CommasOfTotal(a[1..], b);
    }
  }

  lemma {:induction false} CommasOfTrimStart(s: string)
    ensures Commas(TrimStart(s)) == Commas(s)
  {
    if s != "" && IsSpace(s[0]) {
      CommasOfTrimStart(s[1..]);
    }
  }

  lemma {:induction false} CommasOfTrimEnd(s: string)
    ensures Commas(TrimEnd(s)) == Commas(s)
  {
    if s != "" && IsSpace(s[|s| - 1]) {
      CommasOfTrimEnd(s[..|s| - 1]);
      assert s == s[..|s| - 1] + [s[|s| - 1]];
      CommasOfConcat(s[..|s| - 1], [s[|s| - 1]]);
    }
  }

  lemma {:induction false} CommasOfSkipBlanks(s: string)
    ensures Commas(SkipBlanks(s)) == Commas(s)
  {
    if s != "" && s[0] == ' ' {
      CommasOfSkipBlanks(s[1..]);
    }
  }

  lemma TotalOfNonEmpty(part: string)
    ensures TotalCommas(NonEmpty(Trim(part))) == Commas(part)
    ensures |NonEmpty(Trim(part))| <= 1
  {
    hide TrimStart, TrimEnd, Commas;
    CommasOfTrimStart(part);
    CommasOfTrimEnd(TrimStart(part));
    var t := Trim(part);
    assert Commas("") == 0 by { NoCommas(); }
    assert TotalCommas([t]) == Commas(t) + TotalCommas([t][1..]);
  }

  lemma NoCommas()
    ensures Commas("") == 0
  {
  }

  /** Each cut removes one comma, and there is at most one piece more than there are cuts. */
  lemma {:induction false} CommasConserved(s: string)
    ensures TotalCommas(Pieces(s)) + Cuts(s) == Commas(s)
    ensures |Pieces(s)| <= Cuts(s) + 1
    decreases |s|
  {
    hide Separates, Trim, SkipBlanks, NonEmpty;
    var p := NextSeparator(s, 0);
    if p == |s| {
      TotalOfNonEmpty(s);
    } else {
      var rest := SkipBlanks(s[p + 1..]);
      assert s[p] == ',' by { SeparatesAtComma(s, p); }
      assert s == s[..p] + ([','] + s[p + 1..]);
      CommasOfConcat(s[..p], [','] + s[p + 1..]);
      CommasOfConcat([','], s[p + 1..]);
      assert Commas([',']) == 1;
      CommasOfSkipBlanks(s[p + 1..]);
      CommasConserved(rest);
      TotalOfNonEmpty(s[..p]);
      CommasOfTotal(NonEmpty(Trim(s[..p])), Pieces(rest));
    }
  }

  lemma SeparatesAtComma(s: string, p: nat)
    requires p < |s| && Separates(s, p)
    ensures s[p] == ','
  {
  }

  lemma {:induction false} CommasOfJoin(cookies: seq<string>)
    requires cookies != []
    ensures Commas(Join(cookies, SEPARATOR)) == TotalCommas(cookies) + |cookies| - 1
    decreases |cookies|
  {
    JoinIsHeadTail(cookies);
    CommasOfConcat(cookies[0], Tail(cookies));
    if |cookies| > 1 {
      CommasOfJoin(cookies[1..]);
      CommasOfConcat(SEPARATOR, Join(cookies[1..], SEPARATOR));
      assert SEPARATOR[1..] == " " && " "[1..] == "";
    }
  }

  lemma {:induction false} PiecesAreCookies(s: string)
    ensures forall c :: c in Pieces(s) ==> IsCookie(c)
    decreases |s|
  {
    hide Separates, SkipBlanks, Trim;
    var p := NextSeparator(s, 0);
    if p < |s| {
      PiecesAreCookies(SkipBlanks(s[p + 1..]));
    }
  }

  /** The text before a cut, when it trims to the first cookie of the joined text, is that cookie. */
  lemma CutAfterCookie(c: string, tail: string, p: nat)
    requires IsCookie(c) && p <= |c + tail| && (tail != "" ==> tail[0] == ',')
    requires Trim((c + tail)[..p]) == c
    ensures p == |c|
  {
    hide TrimStart, TrimEnd;
    var s := c + tail;
    assert |c| < |s| ==> s[|c|] == ',';
    assert p > 0 ==> s[..p][0] == c[0];
    assert p > 0 ==> TrimStart(s[..p]) == s[..p];
  }

  /** Pieces and cuts at the first separating comma. */
  lemma FirstPiece(s: string)
    ensures var p := NextSeparator(s, 0);
      if p == |s| then Cuts(s) == 0
      else
        var rest := SkipBlanks(s[p + 1..]);
        && Cuts(s) == 1 + Cuts(rest)
        && Pieces(s) == (if Trim(s[..p]) == "" then [] else [Trim(s[..p])]) + Pieces(rest)
  {
    hide Trim, SkipBlanks, NextSeparator;
  }

  lemma {:induction false} OnlyRejoinable(cookies: seq<string>)
    requires Pieces(Join(cookies, SEPARATOR)) == cookies
    ensures Rejoinable(cookies)
    decreases |cookies|
  {
    hide Separates, FirstMark, EqualsFirst, Trim, SkipBlanks, Unbroken, TotalCommas, Commas, Join;
    hide NextSeparator, Cuts, Pieces;
    if cookies != [] {
      var s, c, tail := Join(cookies, SEPARATOR), cookies[0], Tail(cookies);
      JoinIsHeadTail(cookies);
      CommasOfJoin(cookies);
      CommasConserved(s);
      PiecesAreCookies(s);
      assert c in Pieces(s);
      var p := NextSeparator(s, 0);
      InnerCommas(c, tail);
      FirstPiece(s);
      if p < |s| {
        var rest := SkipBlanks(s[p + 1..]);
        CommasConserved(rest);
        CutAfterCookie(c, tail, p);
        assert cookies[1] in Pieces(s);
        JoinedComma(c, Join(cookies[1..], SEPARATOR));
        JoinStarts(cookies[1..]);
        assert Pieces(rest) == cookies[1..];
        OnlyRejoinable(cookies[1..]);
      }
    }
  }

  /** Splitting undoes the comma join for exactly the rejoinable lists. */
  lemma SplitUndoesJoin(cookies: seq<string>)
    ensures Pieces(Join(cookies, SEPARATOR)) == cookies <==> Rejoinable(cookies)
  {
    hide Pieces, Rejoinable;
    if Rejoinable(cookies) {
      SplitsRejoinable(cookies);
    } else if Pieces(Join(cookies, SEPARATOR)) == cookies {
      OnlyRejoinable(cookies);
    }
  }

  /** The condition cookie by cookie, for cookies that name a value before any attribute. */
  predicate CommasClosed(cookies: seq<string>) {
    cookies != [] ==>
      && (forall i :: 0 <= i < |cookies[0]| && cookies[0][i] == ',' ==>
            if |cookies| > 1 then SemicolonFirst(cookies[0][i + 1..]) else !EqualsFirst(cookies[0][i + 1..]))
      && CommasClosed(cookies[1..])
  }

  lemma MarkOfTail(cookies: seq<string>)
    requires cookies != [] && forall c :: c in cookies ==> EqualsFirst(c)
    ensures EqualsFirst(Join(cookies, SEPARATOR))
    ensures FirstMark(Tail(cookies)) == if |cookies| > 1 then '=' else ' '
  {
    hide EqualsFirst, SemicolonFirst;
    JoinIsHeadTail(cookies);
    FirstMarkIs(cookies[0]);
    FirstMarkIs(Join(cookies, SEPARATOR));
    FirstMarkOfConcat(cookies[0], Tail(cookies));
    if |cookies| > 1 {
      FirstMarkIs(cookies[1]);
      var rest := Join(cookies[1..], SEPARATOR);
      JoinIsHeadTail(cookies[1..]);
      FirstMarkOfConcat(cookies[1], Tail(cookies[1..]));
      FirstMarkOfConcat(SEPARATOR, rest);
      assert SEPARATOR[1..] == " " && " "[1..] == "";
    }
  }

  lemma {:induction false} RejoinableCookieByCookie(cookies: seq<string>)
    requires forall c :: c in cookies ==> IsCookie(c) && EqualsFirst(c)
    ensures Rejoinable(cookies) <==> CommasClosed(cookies)
    decreases |cookies|
  {
    hide FirstMark, Join, Tail, EqualsFirst, SemicolonFirst;
    if cookies != [] {
      var c, tail := cookies[0], Tail(cookies);
      MarkOfTail(cookies);
      if |cookies| > 1 { MarkOfTail(cookies[1..]); }
      forall i | 0 <= i < |c| && c[i] == ','
        ensures !EqualsFirst(c[i + 1..] + tail) <==>
          if |cookies| > 1 then SemicolonFirst(c[i + 1..]) else !EqualsFirst(c[i + 1..])
      {
        FirstMarkIs(c[i + 1..]);
        FirstMarkIs(c[i + 1..] + tail);
        FirstMarkOfConcat(c[i + 1..], tail);
      }
      RejoinableCookieByCookie(cookies[1..]);
    }
  }
}
