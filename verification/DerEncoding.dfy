/** Certificates printed by the rules of X.690 and RFC 5280, and what the reader makes of them. */
module DerEncoding {
  import opened Text
  import opened DerReader

  // ----- Lengths, section 8.1.3 of X.690

  const LIMIT := 0x8000_0000

  /** n in base 256, most significant byte first, without leading zeros. */
  function BigEndian(n: nat): (r: seq<byte>)
    ensures |r| >= 1
    ensures n < 0x1_0000_0000 ==> |r| <= 4
    ensures n < 0x100_0000 ==> |r| <= 3
    ensures n < 0x1_0000 ==> |r| <= 2
    ensures n < 0x100 ==> |r| == 1
  {
    if n < 256 then [n] else BigEndian(n / 256) + [n % 256]
  }

  /** The short form below 128, then the long form; X.690 has no code for more than 126 length bytes. */
  function EncodeLength(n: nat): seq<byte> {
    if n < 0x80 then [n]
    else if |BigEndian(n)| < 0x7f then [0x80 + |BigEndian(n)|] + BigEndian(n)
    else []
  }

  /** The number written by big-endian bytes after the value v. */
  function Value(digits: seq<byte>, v: nat): nat {
    if digits == [] then v else Value(digits[1..], v * 256 + digits[0])
  }

  lemma {:induction false} ValueOfSnoc(digits: seq<byte>, x: byte, v: nat)
    ensures Value(digits + [x], v) == Value(digits, v) * 256 + x
  {
    if digits != [] {
      assert (digits + [x])[1..] == digits[1..] + [x];
      ValueOfSnoc(digits[1..], x, v * 256 + digits[0]);
    }
  }

  lemma {:induction false} ValueOfBigEndian(n: nat)
    ensures Value(BigEndian(n), 0) == n
  {
    if n >= 256 {
      ValueOfBigEndian(n / 256);
      ValueOfSnoc(BigEndian(n / 256), n % 256, 0);
    }
  }

  lemma {:induction false} ValueGrows(digits: seq<byte>, v: nat)
    ensures Value(digits, v) >= v
  {
    if digits != [] {
      ValueGrows(digits[1..], v * 256 + digits[0]);
    }
  }

  /** The bytes of part stand in der from position pos. */
  predicate HasAt(der: seq<byte>, pos: nat, part: seq<byte>) {
    pos + |part| <= |der| && der[pos..pos + |part|] == part
  }

  lemma HasAtSplit(der: seq<byte>, pos: nat, a: seq<byte>, b: seq<byte>)
    ensures HasAt(der, pos, a + b) <==> HasAt(der, pos, a) && HasAt(der, pos + |a|, b)
  {
    if pos + |a| + |b| <= |der| {
      assert der[pos..pos + |a| + |b|] == der[pos..pos + |a|] + der[pos + |a|..pos + |a| + |b|];
      assert (a + b)[..|a|] == a && (a + b)[|a|..] == b;
      assert der[pos..pos + |a| + |b|][..|a|] == der[pos..pos + |a|];
      assert der[pos..pos + |a| + |b|][|a|..] == der[pos + |a|..pos + |a| + |b|];
    }
  }

  /** The 32-bit shift loses nothing while the value stays below 2^31. */
  lemma {:induction false} AccumulateIsValue(der: seq<byte>, pos: nat, digits: seq<byte>, v: nat)
    requires HasAt(der, pos, digits) && Value(digits, v) < LIMIT
    ensures Accumulate(der, pos, |digits|, Int(v)) == Int(Value(digits, v))
    decreases |digits|
  {
    if digits != [] {
      var next := v * 256 + digits[0];
      ValueGrows(digits[1..], next);
      assert ToInt32(v) == v && ToInt32(v * 256) == v * 256;
      assert digits == [digits[0]] + digits[1..];
      HasAtSplit(der, pos, [digits[0]], digits[1..]);
      assert der[pos] == der[pos..pos + 1][0] == digits[0];
      AccumulateIsValue(der, pos + 1, digits[1..], next);
    }
  }

  /** Reading inverts writing a length, in the short and the long form. */
  lemma LengthRoundTrip(der: seq<byte>, pos: nat, n: nat)
    requires n < LIMIT && HasAt(der, pos, EncodeLength(n))
    ensures LengthAt(der, Int(pos)) == Length(Int(n), Int(pos + |EncodeLength(n)|))
  {
    hide Accumulate, BigEndian, Value;
    var code := EncodeLength(n);
    assert der[pos] == der[pos..pos + |code|][0] == code[0];
    if n >= 0x80 {
      HasAtSplit(der, pos, [0x80 + |BigEndian(n)|], BigEndian(n));
      ValueOfBigEndian(n);
      AccumulateIsValue(der, pos + 1, BigEndian(n), 0);
    }
  }

  /** Any length code is read as the number its bytes stand for, the shortest code or not: the byte itself below 128,
      and otherwise the number written by as many bytes as it says, none of them for 128. */
  lemma LengthIsValue(der: seq<byte>, pos: nat)
    requires pos < |der|
    ensures der[pos] < 0x80 ==> LengthAt(der, Int(pos)) == Length(Int(der[pos]), Int(pos + 1))
    ensures der[pos] >= 0x80 ==>
      var end := pos + 1 + (der[pos] - 0x80);
      end <= |der| && Value(der[pos + 1..end], 0) < LIMIT ==>
        LengthAt(der, Int(pos)) == Length(Int(Value(der[pos + 1..end], 0)), Int(end))
  {
    hide Accumulate, Value;
    if der[pos] >= 0x80 {
      var end := pos + 1 + (der[pos] - 0x80);
      if end <= |der| && Value(der[pos + 1..end], 0) < LIMIT {
        AccumulateIsValue(der, pos + 1, der[pos + 1..end], 0);
      }
    }
  }

  // ----- Fields

  function Tlv(tag: byte, contents: seq<byte>): (r: seq<byte>)
    ensures |r| >= 1 + |contents|
  {
    [tag] + EncodeLength(|contents|) + contents
  }

  lemma FieldRoundTrip(der: seq<byte>, pos: nat, tag: byte, contents: seq<byte>)
    requires |contents| < LIMIT && HasAt(der, pos, Tlv(tag, contents))
    ensures At(der, Int(pos)) == Int(tag)
    ensures var start := pos + 1 + |EncodeLength(|contents|)|;
      Enter(der, Int(pos)) == Int(start) && HasAt(der, start, contents)
    ensures SkipField(der, Int(pos)) == Int(pos + |Tlv(tag, contents)|)
    ensures Contents(der, Int(pos)) == contents
  {
    hide EncodeLength, LengthAt;
    var code := EncodeLength(|contents|);
    HasAtSplit(der, pos, [tag] + code, contents);
    HasAtSplit(der, pos, [tag], code);
    assert der[pos] == der[pos..pos + 1][0] == tag;
    LengthRoundTrip(der, pos + 1, |contents|);
  }

  // ----- Times, section 4.1.2.5 of RFC 5280

  datatype DateTime = DateTime(year: nat, month: nat, day: nat, hour: nat, minute: nat, second: nat)

  predicate ValidTime(t: DateTime) {
    t.year < 10000 && t.month < 100 && t.day < 100 && t.hour < 100 && t.minute < 100 && t.second < 100
  }

  /** Month to second, two digits each, and the letter of UTC. */
  function TimeTail(t: DateTime): (r: string)
    ensures |r| == 11
    ensures forall c :: c in r ==> c < '\U{0080}'
  {
    Digits(t.month, 2) + Digits(t.day, 2) + Digits(t.hour, 2) + Digits(t.minute, 2) + Digits(t.second, 2) + "Z"
  }

  predicate IsUtc(t: DateTime) {
    1950 <= t.year < 2050
  }

  function TimeText(t: DateTime): (r: string)
    ensures |r| == (if IsUtc(t) then 13 else 15)
    ensures forall c :: c in r ==> c < '\U{0080}'
  {
    if IsUtc(t) then Digits(t.year % 100, 2) + TimeTail(t) else Digits(t.year, 4) + TimeTail(t)
  }

  function Iso(t: DateTime): string {
    Digits(t.year, 4) + "-" + Digits(t.month, 2) + "-" + Digits(t.day, 2) + "T"
    + Digits(t.hour, 2) + ":" + Digits(t.minute, 2) + ":" + Digits(t.second, 2) + "Z"
  }

  function Ascii(text: string): (r: seq<byte>)
    requires forall c :: c in text ==> c < '\U{0080}'
    ensures |r| == |text|
  {
    if text == "" then [] else
      assert text[0] in text;
      assert forall c :: c in text[1..] ==> c in text;
      [text[0] as int] + Ascii(text[1..])
  }

  /** Decoding; a byte outside ASCII is shown as the replacement character. */
  function Decode(bytes: seq<byte>): (r: string)
    ensures |r| == |bytes|
  {
    seq(|bytes|, i requires 0 <= i < |bytes| => if bytes[i] < 0x80 then bytes[i] as char else '\U{FFFD}')
  }

  // ----- parseTime and the date it builds

  function DigitsPrefix(s: string): (k: nat)
    ensures k <= |s| && forall i :: 0 <= i < k ==> IsDigit(s[i])
  {
    if s != "" && IsDigit(s[0]) then 1 + DigitsPrefix(s[1..]) else 0
  }

  function Decimal(s: string, v: nat): nat
    requires forall i :: 0 <= i < |s| ==> IsDigit(s[i])
  {
    if s == "" then v else assert IsDigit(s[0]); Decimal(s[1..], v * 10 + (s[0] as int - '0' as int))
  }

  /** The value of the leading digits. */
  function LeadingNumber(s: string): (r: Num)
    ensures r.Int? ==> r.v >= 0
  {
    var k := DigitsPrefix(s);
    if k == 0 then NaN else Int(Decimal(s[..k], 0))
  }

  /** parseInt in base ten. */
  function ParseInt(s: string): Num {
    var t := TrimStart(s);
    if t != "" && t[0] == '-' then
      var n := LeadingNumber(t[1..]);
      if n.NaN? then NaN else Int(-n.v)
    else LeadingNumber(if t != "" && t[0] == '+' then t[1..] else t)
  }

  /** A number in a template string. */
  function NumText(n: Num): string {
    match n
    case NaN => "NaN"
    case Int(v) => if v < 0 then "-" + NatText(-v) else NatText(v)
  }

  /** The text the Date is built from; None when the length is neither 13 nor 15. */
  function ParseTime(s: string): Option<string> {
    if |s| == 13 then
      var year := ParseInt(s[0..2]);
      var fullYear := if year.Int? && year.v < 50 then Plus(Int(2000), year) else Plus(Int(1900), year);
      Some(NumText(fullYear) + "-" + s[2..4] + "-" + s[4..6] + "T" + s[6..8] + ":" + s[8..10] + ":" + s[10..12] + "Z")
    else if |s| == 15 then
      Some(s[0..4] + "-" + s[4..6] + "-" + s[6..8] + "T" + s[8..10] + ":" + s[10..12] + ":" + s[12..14] + "Z")
    else None
  }

  /** Only texts of 13 and 15 characters are times. */
  lemma TimeLengths(s: string)
    ensures ParseTime(s).Some? <==> |s| == 13 || |s| == 15
  {
    hide ParseInt, NumText;
  }

  function ExpirationDate(der: seq<byte>): Option<string> {
    var field := NotAfterField(der);
    if field.None? then None else ParseTime(Decode(field.value))
  }

  // ----- Certificates, section 4.1 of RFC 5280

  /** One single-valued relative distinguished name. */
  datatype Attribute = Attribute(oid: seq<byte>, tag: byte, value: seq<byte>)

  /** The parts the reader only steps over are given by their contents. */
  datatype Certificate = Certificate(
    version: Option<seq<byte>>, serial: seq<byte>, signature: seq<byte>, issuer: seq<byte>,
    notBefore: DateTime, notAfter: DateTime, subject: seq<Attribute>, restOfTbs: seq<byte>, trailer: seq<byte>)

  function TimeField(t: DateTime): seq<byte>
    requires ValidTime(t)
  {
    Tlv(if IsUtc(t) then 0x17 else 0x18, Ascii(TimeText(t)))
  }

  predicate HasTimes(c: Certificate) {
    ValidTime(c.notBefore) && ValidTime(c.notAfter)
  }

  function Rdn(a: Attribute): seq<byte> {
    Tlv(0x31, Tlv(0x30, Tlv(0x06, a.oid) + Tlv(a.tag, a.value)))
  }

  function Rdns(subject: seq<Attribute>): seq<byte> {
    if subject == [] then [] else Rdn(subject[0]) + Rdns(subject[1..])
  }

  function VersionField(version: Option<seq<byte>>): seq<byte> {
    if version.None? then [] else Tlv(0xa0, version.value)
  }

  function Validity(c: Certificate): seq<byte>
    requires HasTimes(c)
  {
    Tlv(0x30, TimeField(c.notBefore) + TimeField(c.notAfter))
  }

  /** The fields after the version. */
  function Body(c: Certificate): seq<byte>
    requires HasTimes(c)
  {
    Tlv(0x02, c.serial) + (Tlv(0x30, c.signature) + (Tlv(0x30, c.issuer) +
    (Validity(c) + (Tlv(0x30, Rdns(c.subject)) + c.restOfTbs))))
  }

  function Encode(c: Certificate): seq<byte>
    requires HasTimes(c)
  {
    Tlv(0x30, Tlv(0x30, VersionField(c.version) + Body(c)) + c.trailer)
  }

  predicate Valid(c: Certificate) {
    HasTimes(c) && |Encode(c)| < LIMIT
  }

  lemma BodyIsShort(c: Certificate)
    requires Valid(c)
    ensures |Body(c)| < LIMIT
  {
    hide Body, EncodeLength;
  }

  /** Where the fields after the version begin. */
  lemma VersionRoundTrip(c: Certificate) returns (first: nat)
    requires Valid(c)
    ensures AfterVersion(Encode(c)) == Some(Int(first)) && HasAt(Encode(c), first, Body(c))
    ensures HasAt(Encode(c), first + |Body(c)|, c.trailer) && first + |Body(c)| + |c.trailer| == |Encode(c)|
  {
    hide Body, EncodeLength, HasAt, LengthAt, Contents, SkipField, Enter;
    var der := Encode(c);
    var contents := VersionField(c.version) + Body(c);
    var tbs := Tlv(0x30, contents);
    assert HasAt(der, 0, der) by { WholeIsAt(der); }
    FieldRoundTrip(der, 0, 0x30, tbs + c.trailer);
    var start := 1 + |EncodeLength(|tbs + c.trailer|)|;
    HasAtSplit(der, start, tbs, c.trailer);
    FieldRoundTrip(der, start, 0x30, contents);
    first := start + 1 + |EncodeLength(|contents|)|;
    HasAtSplit(der, first, VersionField(c.version), Body(c));
    if c.version.Some? {
      FieldRoundTrip(der, first, 0xa0, c.version.value);
      first := first + |VersionField(c.version)|;
    } else {
      BodyTag(der, c, first);
    }
  }

  /** The first field of the body is the serial number. */
  lemma BodyTag(der: seq<byte>, c: Certificate, first: nat)
    requires Valid(c) && HasAt(der, first, Body(c)) && |Body(c)| < LIMIT
    ensures At(der, Int(first)) == Int(0x02)
  {
    hide EncodeLength, HasAt, LengthAt, Validity, Rdns;
    HasAtSplit(der, first, Tlv(0x02, c.serial), Tlv(0x30, c.signature) + (Tlv(0x30, c.issuer) +
      (Validity(c) + (Tlv(0x30, Rdns(c.subject)) + c.restOfTbs))));
    FieldRoundTrip(der, first, 0x02, c.serial);
  }

  lemma WholeIsAt(der: seq<byte>)
    ensures HasAt(der, 0, der)
  {
  }

  /** Past the serial number, the signature algorithm and the issuer stands the validity, then the subject. */
  lemma FieldsRoundTrip(der: seq<byte>, c: Certificate, first: nat) returns (validity: nat, subject: nat)
    requires Valid(c) && HasAt(der, first, Body(c)) && |Body(c)| < LIMIT
    ensures SkipChecked(der, Int(first), 3) == Some(Int(validity))
    ensures SkipField(der, SkipField(der, SkipField(der, Int(first)))) == Int(validity)
    ensures HasAt(der, validity, Validity(c)) && |Validity(c)| < LIMIT
    ensures subject == validity + |Validity(c)|
    ensures HasAt(der, subject, Tlv(0x30, Rdns(c.subject))) && |Tlv(0x30, Rdns(c.subject))| < LIMIT
    ensures var end := subject + |Tlv(0x30, Rdns(c.subject))|;
      HasAt(der, end, c.restOfTbs) && end + |c.restOfTbs| == first + |Body(c)|
  {
    hide EncodeLength, HasAt, LengthAt, Validity, Rdns, SkipField, SkipChecked, Tlv, Contents, Enter, At;
    var d := Tlv(0x30, Rdns(c.subject)) + c.restOfTbs;
    var e := Validity(c) + d;
    var f := Tlv(0x30, c.issuer) + e;
    var g := Tlv(0x30, c.signature) + f;
    assert Body(c) == Tlv(0x02, c.serial) + g;
    var p1 := first + |Tlv(0x02, c.serial)|;
    var p2 := p1 + |Tlv(0x30, c.signature)|;
    validity := p2 + |Tlv(0x30, c.issuer)|;
    subject := validity + |Validity(c)|;
    HasAtSplit(der, first, Tlv(0x02, c.serial), g);
    HasAtSplit(der, p1, Tlv(0x30, c.signature), f);
    HasAtSplit(der, p2, Tlv(0x30, c.issuer), e);
    HasAtSplit(der, validity, Validity(c), d);
    HasAtSplit(der, subject, Tlv(0x30, Rdns(c.subject)), c.restOfTbs);
    FieldRoundTrip(der, first, 0x02, c.serial);
    FieldRoundTrip(der, p1, 0x30, c.signature);
    FieldRoundTrip(der, p2, 0x30, c.issuer);
    SkipThree(der, Int(first));
  }

  lemma SkipThree(der: seq<byte>, pos: Num)
    ensures var b := SkipField(der, pos);
      var c := SkipField(der, b);
      var ok := (n: Num) => At(der, n) == Int(0x30) || At(der, n) == Int(0x02);
      ok(pos) && ok(b) && ok(c) ==> SkipChecked(der, pos, 3) == Some(SkipField(der, c))
  {
    hide SkipField;
    var b := SkipField(der, pos);
    var c := SkipField(der, b);
    assert SkipChecked(der, SkipField(der, c), 0) == Some(SkipField(der, c));
  }

  /** The reader finds exactly the contents of notAfter, with or without a version field. */
  lemma NotAfterRoundTrip(c: Certificate)
    requires Valid(c)
    ensures NotAfterField(Encode(c)) == Some(Ascii(TimeText(c.notAfter)))
  {
    hide EncodeLength, HasAt, LengthAt, SkipField, Contents, Enter, Encode, Body, AfterVersion, SkipChecked;
    hide TimeText, Ascii;
    var der := Encode(c);
    var first := VersionRoundTrip(c);
    BodyIsShort(c);
    var validity, subject := FieldsRoundTrip(der, c, first);
    var times := TimeField(c.notBefore) + TimeField(c.notAfter);
    FieldRoundTrip(der, validity, 0x30, times);
    var start := validity + 1 + |EncodeLength(|times|)|;
    HasAtSplit(der, start, TimeField(c.notBefore), TimeField(c.notAfter));
    FieldRoundTrip(der, start, if IsUtc(c.notBefore) then 0x17 else 0x18, Ascii(TimeText(c.notBefore)));
    var tag := if IsUtc(c.notAfter) then 0x17 else 0x18;
    FieldRoundTrip(der, start + |TimeField(c.notBefore)|, tag, Ascii(TimeText(c.notAfter)));
  }

  // ----- The date is notAfter

  lemma {:induction false} DecodeAscii(text: string)
    requires forall c :: c in text ==> c < '\U{0080}'
    ensures Decode(Ascii(text)) == text
  {
    if text != "" {
      assert text[0] in text;
      assert forall c :: c in text[1..] ==> c in text;
      DecodeAscii(text[1..]);
      var rest := Ascii(text[1..]);
      assert Ascii(text) == [text[0] as int] + rest;
      assert Decode([text[0] as int] + rest) == [text[0]] + Decode(rest);
    }
  }

  /** The slices of a text made of a year and five pairs. */
  lemma TimeSlices(year: string, t: DateTime)
    ensures var s, k := year + TimeTail(t), |year|;
      && s[0..k] == year
      && s[k..k + 2] == Digits(t.month, 2) && s[k + 2..k + 4] == Digits(t.day, 2)
      && s[k + 4..k + 6] == Digits(t.hour, 2) && s[k + 6..k + 8] == Digits(t.minute, 2)
      && s[k + 8..k + 10] == Digits(t.second, 2)
  {
    hide Digits;
  }

  lemma ParsePair(x: char, y: char)
    requires IsDigit(x) && IsDigit(y)
    ensures ParseInt([x, y]) == Int(10 * (x as int - '0' as int) + (y as int - '0' as int))
  {
    hide TrimStart, DigitsPrefix, Decimal, IsSpace;
    var s := [x, y];
    assert !IsSpace(x) by { DigitIsNoSpace(x); }
    assert TrimStart(s) == s by { NothingToTrim(s); }
    assert s[..2] == s;
    PairPrefix(x, y);
    PairValue(x, y);
  }

  lemma DigitIsNoSpace(c: char)
    requires IsDigit(c)
    ensures !IsSpace(c)
  {
  }

  lemma NothingToTrim(s: string)
    requires s != "" && !IsSpace(s[0])
    ensures TrimStart(s) == s
  {
  }

  lemma PairPrefix(x: char, y: char)
    requires IsDigit(x) && IsDigit(y)
    ensures DigitsPrefix([x, y]) == 2
  {
    assert [x, y][1..] == [y] && [y][1..] == "";
    assert DigitsPrefix("") == 0;
    assert DigitsPrefix([y]) == 1;
  }

  lemma PairValue(x: char, y: char)
    requires IsDigit(x) && IsDigit(y)
    ensures Decimal([x, y], 0) == 10 * (x as int - '0' as int) + (y as int - '0' as int)
  {
    var a: nat := x as int - '0' as int;
    assert [x, y][1..] == [y] && [y][1..] == "";
    assert Decimal([x, y], 0) == Decimal([y], a);
    assert Decimal([y], a) == Decimal("", a * 10 + (y as int - '0' as int));
  }

  lemma ParseTwoDigits(n: nat)
    requires n < 100
    ensures ParseInt(Digits(n, 2)) == Int(n)
  {
    hide ParseInt;
    assert Digits(n / 10, 1) == [Digit(n / 10)];
    assert Digits(n, 2) == [Digit(n / 10), Digit(n % 10)];
    ParsePair(Digit(n / 10), Digit(n % 10));
  }

  lemma {:induction false} DigitsAreNatText(n: nat, k: nat)
    requires k > 0 && Power10(k - 1) <= n < Power10(k)
    ensures NatText(n) == Digits(n, k)
    decreases k
  {
    if k == 1 {
      assert Digits(n / 10, 0) == "";
    } else {
      assert Power10(k - 1) == 10 * Power10(k - 2);
      DigitsAreNatText(n / 10, k - 1);
    }
  }

  lemma FourDigitYear(n: nat)
    requires 1000 <= n < 10000
    ensures NumText(Int(n)) == Digits(n, 4)
  {
    hide Digits, NatText;
    assert Power10(1) == 10 && Power10(2) == 100 && Power10(3) == 1000 && Power10(4) == 10000;
    DigitsAreNatText(n, 4);
  }

  lemma ParseTimeText(t: DateTime)
    requires ValidTime(t)
    ensures ParseTime(TimeText(t)) == Some(Iso(t))
  {
    hide Digits, ParseInt, TimeTail, NumText;
    if IsUtc(t) {
      var yy := t.year % 100;
      TimeSlices(Digits(yy, 2), t);
      ParseTwoDigits(yy);
      FourDigitYear(t.year);
    } else {
      TimeSlices(Digits(t.year, 4), t);
    }
  }

  /** For every certificate the encoder prints, the expiration date read back is notAfter. */
  lemma ExpirationRoundTrip(c: Certificate)
    requires Valid(c)
    ensures ExpirationDate(Encode(c)) == Some(Iso(c.notAfter))
  {
    hide NotAfterField, ParseTime, TimeText, Iso, Encode, Decode, Ascii;
    NotAfterRoundTrip(c);
    DecodeAscii(TimeText(c.notAfter));
    ParseTimeText(c.notAfter);
  }

  // ----- Certificates of ordinary size

  const SOME_DAY := DateTime(2030, 1, 1, 0, 0, 0)

  lemma ShortTlv(tag: byte, contents: seq<byte>)
    requires |contents| < 0x1000
    ensures |Tlv(tag, contents)| <= |contents| + 4
  {
    hide BigEndian;
  }

  lemma ShortRdn(a: Attribute)
    requires |a.oid| <= 20 && |a.value| <= 100
    ensures |Rdn(a)| < 200
  {
    hide EncodeLength;
    ShortTlv(0x06, a.oid);
    ShortTlv(a.tag, a.value);
    ShortTlv(0x30, Tlv(0x06, a.oid) + Tlv(a.tag, a.value));
    ShortTlv(0x31, Tlv(0x30, Tlv(0x06, a.oid) + Tlv(a.tag, a.value)));
  }

  lemma TwoShortRdns(subject: seq<Attribute>)
    requires |subject| == 2 && forall a :: a in subject ==> |a.oid| <= 20 && |a.value| <= 100
    ensures |Rdns(subject)| < 400
  {
    hide Rdn;
    ShortRdn(subject[0]);
    ShortRdn(subject[1]);
    assert subject[1..] == [subject[1]] && [subject[1]][1..] == [];
    assert Rdns(subject) == Rdn(subject[0]) + (Rdn(subject[1]) + Rdns([]));
  }

  lemma SmallIsValid(c: Certificate)
    requires c.version.None? && c.notBefore == c.notAfter == SOME_DAY
    requires |c.serial| < 100 && |c.signature| < 100 && |c.issuer| < 100 && |c.restOfTbs| < 100 && |c.trailer| < 100
    requires |c.subject| == 2 && forall a :: a in c.subject ==> |a.oid| <= 20 && |a.value| <= 100
    ensures Valid(c)
  {
    hide EncodeLength, Rdn, Rdns, TimeText, Ascii, Tlv;
    TwoShortRdns(c.subject);
    ShortTlv(0x17, Ascii(TimeText(SOME_DAY)));
    ShortTlv(0x30, TimeField(SOME_DAY) + TimeField(SOME_DAY));
    ShortTlv(0x30, Rdns(c.subject));
    ShortTlv(0x02, c.serial);
    ShortTlv(0x30, c.signature);
    ShortTlv(0x30, c.issuer);
    ShortTlv(0x30, VersionField(c.version) + Body(c));
    ShortTlv(0x30, Tlv(0x30, VersionField(c.version) + Body(c)) + c.trailer);
  }
}
