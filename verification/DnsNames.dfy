/** Names of the managed DNS zone: normal form, SOA mailbox and record owners. */
module DnsNames {
  import opened Text

  datatype Result = Ok(name: string) | Err

  predicate IsLowerAlnum(c: char) {
    'a' <= c <= 'z' || IsDigit(c)
  }

  /** A host label of at most 63 lower-case letters, digits and inner hyphens. */
  predicate IsLabel(s: string) {
    && 1 <= |s| <= 63
    && IsLowerAlnum(s[0]) && IsLowerAlnum(s[|s| - 1])
    && forall c :: c in s ==> IsLowerAlnum(c) || c == '-'
  }

  function DropDot(s: string): string {
    if EndsWith(s, ".") then s[..|s| - 1] else s
  }

  /** Each label in its ASCII form. */
  function AsciiLabels(toAscii: string -> string, labels: seq<string>): (r: seq<string>)
    ensures |r| == |labels|
  {
    if labels == [] then [] else [Lower(toAscii(labels[0]))] + AsciiLabels(toAscii, labels[1..])
  }

  predicate AllLabels(labels: seq<string>) {
    forall l :: l in labels ==> IsLabel(l)
  }

  function NormalizeDnsName(toAscii: string -> string, value: string): Result {
    var raw := DropDot(Lower(Trim(value)));
    var labels := Split(raw, '.');
    if |labels| < 2 then Err
    else
      var normalized := AsciiLabels(toAscii, labels);
      if !AllLabels(normalized) then Err
      else
        var result := Join(normalized, ".");
        if |result| > 253 then Err else Ok(result)
  }

  /** The text after c's last occurrence starts at this position; 0 when c does not occur. */
  function AfterLast(s: string, c: char): (n: nat)
    ensures n <= |s| && c !in s[n..]
    ensures n > 0 ==> s[n - 1] == c
  {
    if s == "" then 0
    else if s[|s| - 1] == c then |s|
    else AfterLast(s[..|s| - 1], c)
  }

  predicate IsLocalChar(c: char) {
    IsAlpha(c) || IsDigit(c) || c in ".!#$%&'*+/=?^_`{|}~-"
  }

  function Escape(local: string): string {
    if local == "" then "" else (if local[0] == '.' then "\\." else [local[0]]) + Escape(local[1..])
  }

  /** The mailbox of the zone's SOA record, as a domain name. */
  function SoaMailbox(toAscii: string -> string, value: string): Result {
    var trimmed := Trim(value);
    var after := AfterLast(trimmed, '@');
    if after <= 1 || after == |trimmed| then Err
    else
      var local := trimmed[..after - 1];
      if !(forall c :: c in local ==> IsLocalChar(c)) then Err
      else
        var domain := NormalizeDnsName(toAscii, trimmed[after..]);
        if domain.Err? then Err else Ok(Escape(local) + "." + domain.name + ".")
  }

  function RecordOwner(hostname: string, zone: string): Option<string> {
    if hostname == zone then Some("@")
    else if !EndsWith(hostname, "." + zone) then None
    else Some(hostname[..|hostname| - |zone| - 1])
  }

  // ----- Normal form

  lemma {:induction false} LabelsAreLower(toAscii: string -> string, labels: seq<string>, i: nat)
    requires i < |labels|
    ensures AsciiLabels(toAscii, labels)[i] == Lower(toAscii(labels[i]))
  {
    if i > 0 { LabelsAreLower(toAscii, labels[1..], i - 1); }
  }

  /** The ASCII form of an accepted label is its own ASCII form. */
  ghost predicate Settles(toAscii: string -> string) {
    forall l :: IsLabel(Lower(toAscii(l))) ==> Lower(toAscii(Lower(toAscii(l)))) == Lower(toAscii(l))
  }

  /** Characters of a normal name. */
  predicate IsNameChar(c: char) {
    IsLowerAlnum(c) || c == '-' || c == '.'
  }

  lemma {:induction false} JoinOfLabels(labels: seq<string>)
    requires labels != [] && AllLabels(labels)
    ensures var name := Join(labels, ".");
      && name != "" && IsLowerAlnum(name[0]) && IsLowerAlnum(name[|name| - 1])
      && forall c :: c in name ==> IsNameChar(c)
  {
    var name := Join(labels, ".");
    assert labels[0] in labels;
    if |labels| == 1 {
      assert name == labels[0];
    } else {
      assert forall l :: l in labels[1..] ==> l in labels;
      JoinOfLabels(labels[1..]);
      var rest := Join(labels[1..], ".");
      assert name == labels[0] + "." + rest;
      assert name[|name| - 1] == rest[|rest| - 1];
    }
  }

  lemma NormalNameIsPlain(name: string)
    requires name != "" && IsLowerAlnum(name[0]) && IsLowerAlnum(name[|name| - 1])
    requires forall c :: c in name ==> IsNameChar(c)
    ensures DropDot(Lower(Trim(name))) == name
  {
    hide Trim, Lower;
    assert Trim(name) == name;
    assert forall i :: 0 <= i < |name| ==> name[i] in name;
    assert Lower(name) == name;
    assert name[|name| - 1..] == [name[|name| - 1]];
  }

  lemma {:induction false} SettledLabels(toAscii: string -> string, labels: seq<string>)
    requires Settles(toAscii) && AllLabels(AsciiLabels(toAscii, labels))
    ensures AsciiLabels(toAscii, AsciiLabels(toAscii, labels)) == AsciiLabels(toAscii, labels)
  {
    hide IsLabel;
    if labels != [] {
      var ascii := AsciiLabels(toAscii, labels);
      assert ascii[0] in ascii;
      assert forall l :: l in ascii[1..] ==> l in ascii;
      SettledLabels(toAscii, labels[1..]);
    }
  }

  lemma LabelsHaveNoDot(labels: seq<string>)
    requires AllLabels(labels)
    ensures forall l :: l in labels ==> '.' !in l
  {
    assert !IsLowerAlnum('.');
    forall l | l in labels ensures '.' !in l {
      assert IsLabel(l);
    }
  }

  /** Normalising a normal name changes nothing. */
  lemma NormalizeIsIdempotent(toAscii: string -> string, value: string)
    requires Settles(toAscii) && NormalizeDnsName(toAscii, value).Ok?
    ensures var r := NormalizeDnsName(toAscii, value); NormalizeDnsName(toAscii, r.name) == r
  {
    hide Trim, Lower, Split, IsLabel, AllLabels, DropDot, Join, Settles;
    var labels := Split(DropDot(Lower(Trim(value))), '.');
    var normalized := AsciiLabels(toAscii, labels);
    var name := Join(normalized, ".");
    JoinOfLabels(normalized);
    NormalNameIsPlain(name);
    LabelsHaveNoDot(normalized);
    SplitJoin(normalized, '.');
    SettledLabels(toAscii, labels);
  }

  /** A normal name is at least two labels of at most 63 characters, 253 in all. */
  lemma NormalNameLimits(toAscii: string -> string, value: string)
    requires NormalizeDnsName(toAscii, value).Ok?
    ensures var name := NormalizeDnsName(toAscii, value).name;
      && |name| <= 253 && |Split(name, '.')| >= 2
      && (forall l :: l in Split(name, '.') ==> IsLabel(l))
      && (forall c :: c in name ==> IsNameChar(c))
  {
    hide Trim, Lower, Split, IsLabel, DropDot, Join;
    var labels := Split(DropDot(Lower(Trim(value))), '.');
    var normalized := AsciiLabels(toAscii, labels);
    JoinOfLabels(normalized);
    LabelsHaveNoDot(normalized);
    SplitJoin(normalized, '.');
  }

  /** The names that normalising leaves as they are: labels in ASCII form, two or more, within the limits. */
  predicate IsNormalName(toAscii: string -> string, name: string) {
    && |Split(name, '.')| >= 2 && |name| <= 253
    && forall l :: l in Split(name, '.') ==> IsLabel(l) && Lower(toAscii(l)) == l
  }

  lemma {:induction false} AsciiFixed(toAscii: string -> string, labels: seq<string>)
    ensures AsciiLabels(toAscii, labels) == labels <==> forall l :: l in labels ==> Lower(toAscii(l)) == l
  {
    hide Lower;
    if labels != [] {
      AsciiFixed(toAscii, labels[1..]);
      assert labels == [labels[0]] + labels[1..];
      assert AsciiLabels(toAscii, labels)[1..] == AsciiLabels(toAscii, labels[1..]);
    }
  }

  /** Normalising keeps exactly the normal names: it neither refuses nor alters one. */
  lemma NormalNamesStay(toAscii: string -> string, name: string)
    ensures NormalizeDnsName(toAscii, name) == Ok(name) <==> IsNormalName(toAscii, name)
  {
    hide Trim, Lower, Split, IsLabel, DropDot, Join;
    var labels := Split(DropDot(Lower(Trim(name))), '.');
    if NormalizeDnsName(toAscii, name) == Ok(name) {
      var normalized := AsciiLabels(toAscii, labels);
      JoinOfLabels(normalized);
      NormalNameIsPlain(name);
      LabelsHaveNoDot(normalized);
      SplitJoin(normalized, '.');
      AsciiFixed(toAscii, labels);
    }
    if IsNormalName(toAscii, name) {
      JoinSplit(name, '.');
      JoinOfLabels(Split(name, '.'));
      NormalNameIsPlain(name);
      AsciiFixed(toAscii, labels);
    }
  }

  /** A label: one to 63 lower-case letters, digits and hyphens, without a hyphen at either end. */
  lemma LabelsExactly(s: string)
    ensures IsLabel(s) <==> 1 <= |s| <= 63 && forall i :: 0 <= i < |s| ==>
      'a' <= s[i] <= 'z' || '0' <= s[i] <= '9' || (s[i] == '-' && 0 < i < |s| - 1)
  {
    if IsLabel(s) {
      assert forall i :: 0 <= i < |s| ==> s[i] in s;
    }
  }

  /** Case, white space around the name and one final dot make no difference. */
  lemma NormalizesLoosely(toAscii: string -> string, name: string, value: string, left: string, right: string)
    requires IsNormalName(toAscii, name) && Lower(value) == name && AllSpace(left) && AllSpace(right)
    ensures NormalizeDnsName(toAscii, left + value + right) == Ok(name)
    ensures NormalizeDnsName(toAscii, left + (value + ".") + right) == Ok(name)
  {
    hide Trim, Split, IsLabel, Join, IsSpace, AllSpace, AsciiLabels, AllLabels;
    NormalNamesStay(toAscii, name);
    NormalShape(toAscii, name);
    SpaceSurvives(value);
    LowerOfConcat(value, ".");
    TrimsBoth(left, value, right);
    TrimsBoth(left, value + ".", right);
    assert (name + ".")[..|name|] == name && (name + ".")[|name|..] == ".";
    NormalNameIsPlain(name);
  }

  lemma NormalShape(toAscii: string -> string, name: string)
    requires IsNormalName(toAscii, name)
    ensures name != "" && IsLowerAlnum(name[0]) && IsLowerAlnum(name[|name| - 1])
    ensures forall c :: c in name ==> IsNameChar(c)
  {
    hide Split, IsLabel, Join, Lower;
    JoinSplit(name, '.');
    JoinOfLabels(Split(name, '.'));
  }

  lemma LowerOfConcat(a: string, b: string)
    ensures Lower(a + b) == Lower(a) + Lower(b) && Lower(".") == "."
  {
  }

  /** Letters and digits in any case are no white space. */
  lemma SpaceSurvives(value: string)
    requires value != "" && IsLowerAlnum(Lower(value)[0]) && IsLowerAlnum(Lower(value)[|value| - 1])
    ensures Trimmed(value) && Trimmed(value + ".")
  {
    hide Lower;
    LowerIsNoSpace(value[0]);
    LowerIsNoSpace(value[|value| - 1]);
    assert !IsSpace('.');
  }

  lemma LowerIsNoSpace(c: char)
    requires IsLowerAlnum(LowerChar(c))
    ensures !IsSpace(c)
  {
  }

  // ----- The SOA mailbox, sections 3.3.13 and 5.1 of RFC 1035

  datatype Mailbox = Mailbox(local: string, domain: string)

  /** Reads a printed mailbox: a backslash quotes the next character, and the first unquoted dot ends the local part. */
  function ReadRname(s: string): Mailbox {
    if s == "" then Mailbox("", "")
    else if s[0] == '.' then Mailbox("", s[1..])
    else if s[0] == '\\' && |s| > 1 then
      var rest := ReadRname(s[2..]);
      Mailbox([s[1]] + rest.local, rest.domain)
    else
      var rest := ReadRname(s[1..]);
      Mailbox([s[0]] + rest.local, rest.domain)
  }

  lemma ReadOne(c: char, tail: string)
    ensures c != '.' && c != '\\' ==>
      ReadRname([c] + tail) == Mailbox([c] + ReadRname(tail).local, ReadRname(tail).domain)
    ensures ReadRname("\\." + tail) == Mailbox("." + ReadRname(tail).local, ReadRname(tail).domain)
    ensures ReadRname("." + tail) == Mailbox("", tail)
  {
    assert ([c] + tail)[1..] == tail && ("." + tail)[1..] == tail;
    assert ("\\." + tail)[2..] == tail && ("\\." + tail)[1] == '.';
  }

  lemma {:induction false} ReadEscaped(local: string, rest: string)
    requires '\\' !in local
    ensures ReadRname(Escape(local) + ("." + rest)) == Mailbox(local, rest)
  {
    hide ReadRname;
    if local == "" {
      assert Escape(local) + ("." + rest) == "." + rest;
      ReadOne('.', rest);
    } else {
      assert local[0] in local;
      ReadEscaped(local[1..], rest);
      var tail := Escape(local[1..]) + ("." + rest);
      ReadOne(local[0], tail);
      var head := if local[0] == '.' then "\\." else [local[0]];
      assert Escape(local) + ("." + rest) == head + tail;
      assert local == [local[0]] + local[1..];
    }
  }

  /** Reading the printed mailbox gives back the local part and the normal domain, with its final dot. */
  lemma MailboxRoundTrip(toAscii: string -> string, value: string)
    requires SoaMailbox(toAscii, value).Ok?
    ensures var trimmed := Trim(value);
      var after := AfterLast(trimmed, '@');
      && after >= 1 && trimmed == trimmed[..after - 1] + "@" + trimmed[after..]
      && NormalizeDnsName(toAscii, trimmed[after..]).Ok?
      && ReadRname(SoaMailbox(toAscii, value).name)
         == Mailbox(trimmed[..after - 1], NormalizeDnsName(toAscii, trimmed[after..]).name + ".")
  {
    hide Trim, NormalizeDnsName, ReadRname, Escape, AfterLast;
    var trimmed := Trim(value);
    var after := AfterLast(trimmed, '@');
    var local := trimmed[..after - 1];
    assert trimmed[after - 1..after] == "@";
    assert trimmed == trimmed[..after - 1] + trimmed[after - 1..after] + trimmed[after..];
    assert !IsLocalChar('\\');
    var domain := NormalizeDnsName(toAscii, trimmed[after..]).name;
    ReadEscaped(local, domain + ".");
    assert Escape(local) + "." + domain + "." == Escape(local) + ("." + (domain + "."));
  }

  /** Exactly the mailboxes with a local part of allowed characters and a domain name after the last '@' are
      accepted. */
  lemma MailboxAccepted(toAscii: string -> string, value: string, local: string, domain: string)
    requires Trim(value) == local + "@" + domain && '@' !in domain
    ensures SoaMailbox(toAscii, value).Ok? <==>
      local != "" && (forall c :: c in local ==> IsLocalChar(c)) && NormalizeDnsName(toAscii, domain).Ok?
  {
    hide Trim, IsLocalChar, Escape, Lower, AsciiLabels, Join, AfterLast;
    var trimmed := Trim(value);
    var after := AfterLast(trimmed, '@');
    assert trimmed[|local|] == '@' && trimmed[|local| + 1..] == domain;
    assert after == |local| + 1;
    assert trimmed[..after - 1] == local;
    if domain == "" { assert Trim("") == ""; SplitNone("", '.'); }
  }

  // ----- Record owners

  /** The name an owner stands for under the zone's origin. */
  function Absolute(owner: string, zone: string): string {
    if owner == "@" then zone else owner + "." + zone
  }

  /** A host of the zone gets the owner that stands for it; any other host gets none. */
  lemma OwnerPlusOrigin(hostname: string, zone: string)
    requires '@' !in hostname
    ensures RecordOwner(hostname, zone).Some? <==> hostname == zone || EndsWith(hostname, "." + zone)
    ensures RecordOwner(hostname, zone).Some? ==> Absolute(RecordOwner(hostname, zone).value, zone) == hostname
  {
    if hostname != zone && EndsWith(hostname, "." + zone) {
      var owner := hostname[..|hostname| - |zone| - 1];
      assert hostname == owner + ("." + zone);
      assert forall c :: c in owner ==> c in hostname;
    }
  }

  /** The owner of a host is the one name that stands for it. */
  lemma OwnerExactly(owner: string, hostname: string, zone: string)
    requires '@' !in hostname
    ensures RecordOwner(hostname, zone) == Some(owner) <==> Absolute(owner, zone) == hostname
  {
    OwnerPlusOrigin(hostname, zone);
    var full := owner + "." + zone;
    assert full == owner + ("." + zone);
    if owner != "@" && full == hostname {
      assert full[|owner|..] == "." + zone;
      assert hostname[..|hostname| - |zone| - 1] == owner;
    }
    assert forall i :: 0 <= i < |hostname| ==> hostname[i] in hostname;
  }
}
