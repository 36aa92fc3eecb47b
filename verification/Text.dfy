/** Strings as the console's JavaScript sees them: trimming, splitting, joining. */
module Text {

  datatype Option<+T> = None | Some(value: T)

  /** White space removed by JavaScript's trim. */
  predicate IsSpace(c: char) {
    || '\t' <= c <= '\r'
    || c in {' ', '\U{00A0}', '\U{1680}', '\U{2028}', '\U{2029}', '\U{202F}', '\U{205F}', '\U{3000}', '\U{FEFF}'}
    || '\U{2000}' <= c <= '\U{200A}'
  }

  predicate IsDigit(c: char) {
    '0' <= c <= '9'
  }

  predicate IsAlpha(c: char) {
    'a' <= c <= 'z' || 'A' <= c <= 'Z'
  }

  function TrimStart(s: string): (r: string)
    ensures |r| <= |s| && r == s[|s| - |r|..]
    ensures r != [] ==> !IsSpace(r[0])
    ensures forall i :: 0 <= i < |s| - |r| ==> IsSpace(s[i])
  {
    if s != [] && IsSpace(s[0]) then TrimStart(s[1..]) else s
  }

  function TrimEnd(s: string): (r: string)
    ensures |r| <= |s| && r == s[..|r|]
    ensures r != [] ==> !IsSpace(r[|r| - 1])
    ensures forall i :: |r| <= i < |s| ==> IsSpace(s[i])
  {
    if s != [] && IsSpace(s[|s| - 1]) then TrimEnd(s[..|s| - 1]) else s
  }

  function Trim(s: string): (r: string)
    ensures |r| <= |s|
    ensures r != [] ==> !IsSpace(r[0]) && !IsSpace(r[|r| - 1])
    ensures r == [] <==> forall c :: c in s ==> IsSpace(c)
    ensures s != [] && !IsSpace(s[0]) && !IsSpace(s[|s| - 1]) ==> r == s
  {
    var t := TrimStart(s);
    assert forall i :: |s| - |t| <= i < |s| ==> s[i] == t[i - (|s| - |t|)];
    TrimEnd(t)
  }

  predicate AllSpace(s: string) {
    forall c :: c in s ==> IsSpace(c)
  }

  lemma {:induction false} TrimsStart(blank: string, s: string)
    requires AllSpace(blank) && (s != "" ==> !IsSpace(s[0]))
    ensures TrimStart(blank + s) == s
    decreases |blank|
  {
    hide IsSpace;
    if blank == "" {
      assert blank + s == s;
    } else {
      assert blank[0] in blank && (blank + s)[1..] == blank[1..] + s;
      TrimsStart(blank[1..], s);
    }
  }

  lemma SpaceBefore(s: string) returns (gap: string)
    ensures AllSpace(gap) && s == gap + TrimStart(s)
  {
    hide IsSpace;
    gap := s[..|s| - |TrimStart(s)|];
    assert forall i :: 0 <= i < |gap| ==> gap[i] == s[i];
  }

  lemma {:induction false} TrimsEnd(s: string, blank: string)
    requires AllSpace(blank) && (s != "" ==> !IsSpace(s[|s| - 1]))
    ensures TrimEnd(s + blank) == s
    decreases |blank|
  {
    hide IsSpace;
    if blank == "" {
      assert s + blank == s;
    } else {
      var n := |blank| - 1;
      assert blank[n] in blank && (s + blank)[..|s| + n] == s + blank[..n];
      TrimsEnd(s, blank[..n]);
    }
  }

  /** Trimming takes away white space on both sides, and nothing else. */
  lemma TrimsBoth(left: string, s: string, right: string)
    requires AllSpace(left) && AllSpace(right) && s != "" && Trimmed(s)
    ensures Trim(left + s + right) == s
  {
    hide IsSpace, AllSpace;
    assert left + s + right == left + (s + right);
    TrimsStart(left, s + right);
    TrimsEnd(s, right);
  }

  /** A string that trim leaves alone. */
  predicate Trimmed(s: string) {
    s != [] ==> !IsSpace(s[0]) && !IsSpace(s[|s| - 1])
  }

  predicate StartsWith(s: string, prefix: string) {
    prefix <= s
  }

  predicate EndsWith(s: string, suffix: string) {
    |suffix| <= |s| && s[|s| - |suffix|..] == suffix
  }

  function LowerChar(c: char): (r: char)
    ensures !('A' <= r <= 'Z')
    ensures !('A' <= c <= 'Z') ==> r == c
  {
    if 'A' <= c <= 'Z' then c + 32 as char else c
  }

  /** Lower-casing of ASCII letters; every other character is kept. */
  function Lower(s: string): (r: string)
    ensures |r| == |s|
    ensures forall i :: 0 <= i < |s| ==> r[i] == LowerChar(s[i])
  {
    seq(|s|, i requires 0 <= i < |s| => LowerChar(s[i]))
  }

  /** First position of c in s, |s| when there is none. */
  function Find(s: string, c: char): (i: nat)
    ensures i <= |s|
    ensures i < |s| ==> s[i] == c
    ensures c !in s[..i]
  {
    if s == [] || s[0] == c then 0 else 1 + Find(s[1..], c)
  }

  lemma FindAt(a: string, c: char, b: string)
    requires c !in a
    ensures Find(a + [c] + b, c) == |a|
  {
    if a == [] {
      assert (a + [c] + b)[0] == c;
    } else {
      assert (a + [c] + b)[1..] == a[1..] + [c] + b;
      FindAt(a[1..], c, b);
    }
  }

  /** The pieces of s between separators: one more than there are separators. */
  function Split(s: string, sep: char): (r: seq<string>)
    ensures |r| >= 1
    ensures forall p :: p in r ==> sep !in p
    decreases |s|
  {
    var i := Find(s, sep);
    if i == |s| then [s] else [s[..i]] + Split(s[i + 1..], sep)
  }

  function Join(parts: seq<string>, sep: string): string
  {
    if parts == [] then ""
    else if |parts| == 1 then parts[0]
    else parts[0] + sep + Join(parts[1..], sep)
  }

  lemma JoinCons(first: string, rest: seq<string>, sep: string)
    requires rest != []
    ensures Join([first] + rest, sep) == first + sep + Join(rest, sep)
  {
    assert ([first] + rest)[1..] == rest;
  }

  lemma SplitFirst(a: string, sep: char, b: string)
    requires sep !in a
    ensures Split(a + [sep] + b, sep) == [a] + Split(b, sep)
  {
    hide Find;
    FindAt(a, sep, b);
    var s := a + [sep] + b;
    assert s[..|a|] == a && s[|a| + 1..] == b;
  }

  lemma SplitNone(a: string, sep: char)
    requires sep !in a
    ensures Split(a, sep) == [a]
  {
  }

  lemma {:induction false} SplitJoin(parts: seq<string>, sep: char)
    requires parts != []
    requires forall p :: p in parts ==> sep !in p
    ensures Split(Join(parts, [sep]), sep) == parts
  {
    hide Split;
    if |parts| == 1 {
      SplitNone(parts[0], sep);
    } else {
      assert parts == [parts[0]] + parts[1..];
      SplitFirst(parts[0], sep, Join(parts[1..], [sep]));
      SplitJoin(parts[1..], sep);
    }
  }

  lemma {:induction false} JoinSplit(s: string, sep: char)
    ensures Join(Split(s, sep), [sep]) == s
    decreases |s|
  {
    hide Split, Find, Join;
    var i := Find(s, sep);
    if i == |s| {
      SplitNone(s, sep);
      JoinOne(s, [sep]);
    } else {
      var head, rest := s[..i], s[i + 1..];
      assert s == head + [sep] + rest;
      SplitFirst(head, sep, rest);
      JoinSplit(rest, sep);
      JoinCons(head, Split(rest, sep), [sep]);
    }
  }

  lemma JoinOne(s: string, sep: string)
    ensures Join([s], sep) == s
  {
  }

  /** Splitting around a separator splits the two sides on their own. */
  lemma {:induction false} SplitAt(a: string, sep: char, b: string)
    ensures Split(a + [sep] + b, sep) == Split(a, sep) + Split(b, sep)
    decreases |a|
  {
    hide Split, Find;
    var i := Find(a, sep);
    if i == |a| {
      SplitNone(a, sep);
      SplitFirst(a, sep, b);
    } else {
      var head, rest := a[..i], a[i + 1..];
      assert a == head + [sep] + rest;
      SplitFirst(head, sep, rest);
      SplitAt(rest, sep, b);
      assert a + [sep] + b == head + [sep] + (rest + [sep] + b);
      SplitFirst(head, sep, rest + [sep] + b);
      assert [head] + (Split(rest, sep) + Split(b, sep)) == [head] + Split(rest, sep) + Split(b, sep);
    }
  }

  function Digit(n: nat): char
    requires n < 10
  {
    '0' + n as char
  }

  /** n in exactly k decimal digits. */
  function Digits(n: nat, k: nat): (r: string)
    ensures |r| == k
    ensures forall c :: c in r ==> IsDigit(c)
    decreases k
  {
    if k == 0 then "" else Digits(n / 10, k - 1) + [Digit(n % 10)]
  }

  /** n in decimal digits. */
  function NatText(n: nat): string {
    if n < 10 then [Digit(n)] else NatText(n / 10) + [Digit(n % 10)]
  }

  function Power10(k: nat): nat {
    if k == 0 then 1 else 10 * Power10(k - 1)
  }
}
