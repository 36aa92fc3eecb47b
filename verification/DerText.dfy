/** Exactly when the common name of a subject with short attributes is found. */
module DerText {
  import opened Text
  import opened DerReader
  import opened DerScan
  import opened DerEncoding
  import opened DerNames

  // ----- Subjects with short attributes

  /** Short lengths throughout the encoding. */
  predicate IsShort(a: Attribute) {
    |a.oid| > 0 && 6 + |a.oid| + |a.value| < 0x80
  }

  /** At position p a byte 0x31 does not open an attribute: lengths are short, and no identifier follows. */
  predicate Quiet(b: seq<byte>, p: nat)
    requires p < |b|
  {
    b[p] == 0x31 ==>
      && (p + 1 < |b| ==> b[p + 1] < 0x80)
      && (p + 3 < |b| && b[p + 2] == 0x30 ==> b[p + 3] < 0x80)
      && (p + 4 < |b| && b[p + 2] == 0x30 ==> b[p + 4] != 0x06)
  }

  /** A short attribute whose encoding is quiet behind its first byte. */
  predicate IsQuiet(a: Attribute) {
    IsShort(a) && forall k :: 0 < k < |Rdn(a)| ==> Quiet(Rdn(a), k)
  }

  predicate AllQuiet(subject: seq<Attribute>) {
    forall a :: a in subject ==> IsQuiet(a)
  }

  /** The byte before the i-th byte of the value: a digit 0 or 1, or a length that looks like one. */
  predicate AfterZeroOrOne(value: seq<byte>, i: nat)
    requires i < |value|
  {
    var previous := if i == 0 then |value| else value[i - 1] as int;
    previous == 0x30 || previous == 0x31
  }

  /** Text in UTF-8 in which no letter outside ASCII stands right behind a digit 0 or 1. The byte 6, the tag of an
      identifier, is no text; the byte 0x31 occurs neither as the value's tag nor in the attribute's identifier. */
  predicate IsText(a: Attribute) {
    && IsShort(a)
    && a.tag != 0x31 && |a.oid| != 0x31 && 0x31 !in a.oid
    && forall i :: 0 <= i < |a.value| ==>
         a.value[i] != 0x06 && (a.value[i] >= 0x80 ==> !AfterZeroOrOne(a.value, i))
  }

  /** The public key that section 4.1 of RFC 5280 puts after the subject; its algorithm begins with an identifier. */
  function KeyInfo(oid: seq<byte>, parameters: seq<byte>, key: seq<byte>): seq<byte> {
    Tlv(0x30, Tlv(0x30, Tlv(0x06, oid) + parameters) + key)
  }

  /** How far the scan moves from position p of an encoded subject: one byte, three, five, or to the value. */
  function Stride(b: seq<byte>, p: nat): (n: nat)
    requires p < |b|
    ensures n > 0
  {
    if b[p] != 0x31 then 1
    else if p + 2 >= |b| || b[p + 2] != 0x30 then 3
    else if p + 4 >= |b| || b[p + 4] != 0x06 then 5
    else if p + 5 >= |b| then 6
    else 6 + (b[p + 5] as int)
  }

  /** Strides from p lead exactly to the end. */
  predicate OnTrack(b: seq<byte>, p: nat)
    requires p <= |b|
    decreases |b| - p
  {
    p == |b| || (p + Stride(b, p) <= |b| && OnTrack(b, p + Stride(b, p)))
  }

  lemma StridePrefix(a: seq<byte>, b: seq<byte>, p: nat)
    requires p < |a|
    ensures p + Stride(a, p) <= |a| <==> p + Stride(a + b, p) <= |a|
    ensures p + Stride(a, p) <= |a| ==> Stride(a + b, p) == Stride(a, p)
  {
  }

  lemma StrideSuffix(a: seq<byte>, b: seq<byte>, p: nat)
    requires p < |b|
    ensures Stride(a + b, |a| + p) == Stride(b, p)
  {
  }

  // ----- The bytes of one attribute

  /** The encoding of an attribute, byte for byte. */
  lemma ShortBytes(a: Attribute)
    requires IsShort(a)
    ensures Rdn(a) == [0x31, 6 + |a.oid| + |a.value|, 0x30, 4 + |a.oid| + |a.value|, 0x06, |a.oid|] + a.oid
                      + [a.tag, |a.value|] + a.value
  {
    var oid, value := Tlv(0x06, a.oid), ValueField(a);
    assert oid == [0x06, |a.oid|] + a.oid && value == [a.tag, |a.value|] + a.value;
    assert Tlv(0x30, oid + value) == [0x30, 4 + |a.oid| + |a.value|] + (oid + value);
  }

  /** What may stand behind an attribute's bytes: nothing, or the first bytes of another attribute. */
  predicate NextIsShort(next: seq<byte>) {
    && (|next| > 0 ==> next[0] == 0x31)
    && (|next| > 1 ==> 6 < next[1] < 0x80)
    && (|next| > 2 ==> next[2] == 0x30)
    && (|next| > 3 ==> next[3] < 0x80 && (next[1] == 0x30 ==> next[3] != 0x06))
  }

  lemma QuietInside(a: Attribute, next: seq<byte>, k: nat)
    requires IsQuiet(a) && 0 < k < |Rdn(a)| && NextIsShort(next)
    ensures Quiet(Rdn(a) + next, k)
  {
    hide Rdn;
    var r, b := Rdn(a), Rdn(a) + next;
    assert Quiet(r, k);
    assert forall i :: 0 <= i < |r| ==> b[i] == r[i];
    assert forall i :: |r| <= i < |b| ==> b[i] == next[i - |r|];
  }

  lemma SubjectIsNext(subject: seq<Attribute>)
    requires AllQuiet(subject)
    ensures NextIsShort(Rdns(subject))
  {
    hide Rdn;
    if subject != [] {
      assert subject[0] in subject;
      ShortBytes(subject[0]);
    }
  }

  lemma QuietLater(a: seq<byte>, b: seq<byte>, p: nat)
    requires p < |b| && Quiet(b, p)
    ensures Quiet(a + b, |a| + p)
  {
  }

  /** Inside an encoded subject every position opens an attribute or is quiet. */
  lemma {:induction false} QuietOrStart(subject: seq<Attribute>, p: nat) returns (i: nat)
    requires AllQuiet(subject) && p < |Rdns(subject)|
    ensures i <= |subject|
    ensures i < |subject| ==> p == |Rdns(subject[..i])|
    ensures i == |subject| ==> Quiet(Rdns(subject), p)
    decreases |subject|
  {
    hide Rdn, Quiet, IsQuiet;
    var a, rest := subject[0], subject[1..];
    assert a in subject && forall x :: x in rest ==> x in subject;
    if p == 0 {
      i := 0;
    } else if p < |Rdn(a)| {
      SubjectIsNext(rest);
      QuietInside(a, Rdns(rest), p);
      i := |subject|;
    } else {
      i := QuietOrStart(rest, p - |Rdn(a)|);
      if i < |rest| {
        assert subject[..i + 1] == [a] + rest[..i];
        assert ([a] + rest[..i])[1..] == rest[..i];
      } else {
        QuietLater(Rdn(a), Rdns(rest), p - |Rdn(a)|);
      }
      i := i + 1;
    }
  }

  /** Text is quiet. */
  lemma TextIsQuiet(a: Attribute)
    requires IsText(a)
    ensures IsQuiet(a)
  {
    hide Rdn, Quiet;
    ShortBytes(a);
    var r, m := Rdn(a), |a.oid|;
    forall i | 6 <= i < 7 + m ensures r[i] != 0x31 {
      if i < 6 + m { assert r[i] == a.oid[i - 6]; }
    }
    forall i | 8 + m <= i < |r| ensures r[i] != 0x06 && (r[i] >= 0x80 ==> r[i - 1] != 0x30 && r[i - 1] != 0x31) {
      var k := i - 8 - m;
      assert r[i] == a.value[k] && r[i - 1] == if k == 0 then |a.value| else a.value[k - 1] as int;
    }
    forall k | 0 < k < |r| ensures Quiet(r, k) { TextByte(r, m, |a.value|, k); }
  }

  /** Where the bytes of a text attribute can hold 0x31 after the first. */
  lemma TextByte(r: seq<byte>, m: nat, n: nat, k: nat)
    requires 0 < m != 0x31 && 6 + m + n < 0x80 && 0 < k < |r| == 8 + m + n
    requires r[..6] == [0x31, 6 + m + n, 0x30, 4 + m + n, 0x06, m] && r[7 + m] == n
    requires forall i :: 6 <= i < 7 + m ==> r[i] != 0x31
    requires forall i :: 8 + m <= i < |r| ==> r[i] != 0x06 && (r[i] >= 0x80 ==> r[i - 1] != 0x30 && r[i - 1] != 0x31)
    ensures Quiet(r, k)
  {
    var f := r[..6];
    assert forall i :: 0 <= i < 6 ==> r[i] == f[i];
  }

  // ----- One round of the scan

  /** The strides read off the bytes are the rounds of the scan, wherever they end inside the bytes. */
  lemma RoundInside(der: seq<byte>, pos: nat, b: seq<byte>, p: nat)
    requires HasAt(der, pos, b) && p < |b| && Quiet(b, p) && p + Stride(b, p) <= |b|
    ensures ScanStep(der, pos + p) == Go(Int(pos + p + Stride(b, p)))
  {
    hide ScanStep;
    forall k | p <= k < |b| ensures der[pos + k] == b[k] {
      AtLocal(b, der, pos, k);
    }
    if b[p] != 0x31 {
      NotASet(der, pos + p);
    } else {
      ShortStep(der, pos + p);
    }
  }

  lemma LengthCode(n: nat)
    ensures n < LIMIT ==> |EncodeLength(n)| >= 1
    ensures EncodeLength(n) != [] && EncodeLength(n)[0] < 0x80 ==> EncodeLength(n) == [n]
  {
    hide BigEndian;
  }

  /** The first bytes of a public key. */
  lemma KeyStart(der: seq<byte>, e: nat, oid: seq<byte>, parameters: seq<byte>, key: seq<byte>)
    requires |oid| >= 3 && |KeyInfo(oid, parameters, key)| < LIMIT && HasAt(der, e, KeyInfo(oid, parameters, key))
    ensures e + 7 < |der| && der[e] == 0x30 && der[e + 1] != 0x06
    ensures Enter(der, Int(e)).Int? && Enter(der, Int(e)).v > e && At(der, Enter(der, Int(e))) == Int(0x30)
    ensures der[e + 1] == 0x30 ==>
      e + 50 <= |der| && der[e + 2] == 0x30 && (der[e + 3] == 0x06 ==> der[e + 4] == 0x06)
  {
    hide EncodeLength, LengthAt, HasAt, SkipField, Contents;
    var id := Tlv(0x06, oid);
    var algorithm := Tlv(0x30, id + parameters);
    var contents := algorithm + key;
    LengthCode(|oid|);
    LengthCode(|id + parameters|);
    LengthCode(|contents|);
    FieldRoundTrip(der, e, 0x30, contents);
    var start := e + 1 + |EncodeLength(|contents|)|;
    HasAtSplit(der, start, algorithm, key);
    FieldRoundTrip(der, start, 0x30, id + parameters);
    var inner := start + 1 + |EncodeLength(|id + parameters|)|;
    HasAtSplit(der, inner, id, parameters);
    FieldRoundTrip(der, inner, 0x06, oid);
    HeaderBytes(der, e, 0x30, contents);
    HeaderBytes(der, start, 0x30, id + parameters);
  }

  lemma HeaderBytes(der: seq<byte>, pos: nat, tag: byte, contents: seq<byte>)
    requires |contents| < LIMIT && HasAt(der, pos, Tlv(tag, contents))
    ensures pos + 1 + |EncodeLength(|contents|)| + |contents| <= |der|
    ensures |EncodeLength(|contents|)| >= 1 && der[pos] == tag && der[pos + 1] == EncodeLength(|contents|)[0]
  {
    hide EncodeLength;
    LengthCode(|contents|);
    var t := Tlv(tag, contents);
    AtLocal(t, der, pos, 0);
    AtLocal(t, der, pos, 1);
  }

  /** A SET tag before the key leads past the subject, and not to a name. */
  lemma RoundPast(der: seq<byte>, pos: nat, b: seq<byte>, p: nat, oid: seq<byte>, parameters: seq<byte>, key: seq<byte>)
    requires HasAt(der, pos, b) && p < |b| && Quiet(b, p) && p + Stride(b, p) > |b|
    requires |oid| >= 3 && |KeyInfo(oid, parameters, key)| < LIMIT
    requires HasAt(der, pos + |b|, KeyInfo(oid, parameters, key))
    ensures var visit := ScanStep(der, pos + p); visit.Go? && visit.to.Int? && visit.to.v > pos + |b|
  {
    hide ScanStep, KeyInfo, Enter;
    forall k | p <= k < |b| ensures der[pos + k] == b[k] {
      AtLocal(b, der, pos, k);
    }
    var q, e := pos + p, pos + |b|;
    KeyStart(der, e, oid, parameters, key);
    ShortStep(der, q);
    if p + 2 == |b| {
      PastSequence(der, q);
    } else if p + 1 == |b| && der[e + 1] == 0x30 && der[e + 3] == 0x06 {
      PastAlgorithm(der, q);
    }
  }

  lemma PastSequence(der: seq<byte>, q: nat)
    requires q + 2 < |der| && der[q] == 0x31 && der[q + 1] < 0x80 && der[q + 2] == 0x30
    requires At(der, Enter(der, Int(q + 2))) == Int(0x30)
    ensures ScanStep(der, q) == Go(Plus(Enter(der, Int(q + 2)), Int(1)))
  {
    hide Accumulate, Contents, SkipField;
    assert Enter(der, Int(q)) == Int(q + 2);
  }

  lemma PastAlgorithm(der: seq<byte>, q: nat)
    requires q + 51 <= |der| && der[q..q + 6] == [0x31, 0x30, 0x30, 0x30, 0x06, 0x06]
    ensures ScanStep(der, q) == Go(Int(q + 12))
  {
    hide Accumulate;
    var f := der[q..q + 6];
    assert forall i :: 0 <= i < 6 ==> der[q + i] == f[i];
    assert Enter(der, Int(q)) == Int(q + 2);
    assert Enter(der, Int(q + 2)) == Int(q + 4);
    assert LengthAt(der, Int(q + 5)) == Length(Int(6), Int(q + 6));
    assert |Contents(der, Int(q + 4))| == 6;
  }

  // ----- The whole subject

  /** The encoded attributes before the i-th. */
  function Before(subject: seq<Attribute>, i: nat): seq<byte>
    requires i <= |subject|
  {
    Rdns(subject[..i])
  }

  /** The first common name, from the i-th attribute on, to whose start strides from p lead exactly. */
  function NameOnTrack(subject: seq<Attribute>, i: nat, p: nat): Outcome
    requires i <= |subject|
    decreases |subject| - i
  {
    if i == |subject| then Null
    else if IsName(subject[i]) && p <= |Before(subject, i)| && OnTrack(Before(subject, i), p) then
      Name(subject[i].value)
    else NameOnTrack(subject, i + 1, p)
  }

  lemma SubjectAt(subject: seq<Attribute>, i: nat)
    requires i < |subject|
    ensures Rdns(subject) == Before(subject, i) + (Rdn(subject[i]) + Rdns(subject[i + 1..]))
    ensures i + 1 <= |subject| && |Before(subject, i + 1)| == |Before(subject, i)| + |Rdn(subject[i])|
  {
    hide Rdn;
    assert subject == subject[..i] + subject[i..];
    RdnsOfConcat(subject[..i], subject[i..]);
    assert subject[i..][0] == subject[i] && subject[i..][1..] == subject[i + 1..];
    assert subject[..i + 1] == subject[..i] + [subject[i]];
    RdnsOfConcat(subject[..i], [subject[i]]);
    assert [subject[i]][1..] == [];
    assert Rdns([subject[i]]) == Rdn(subject[i]) + Rdns([]);
  }

  /** A stride from where no common name starts does not change which names it leads to. */
  lemma {:induction false} StrideKeepsName(subject: seq<Attribute>, i: nat, p: nat)
    requires i <= |subject| && p < |Rdns(subject)|
    requires forall j :: i <= j < |subject| && IsName(subject[j]) ==> |Before(subject, j)| != p
    ensures NameOnTrack(subject, i, p) == NameOnTrack(subject, i, p + Stride(Rdns(subject), p))
    ensures p + Stride(Rdns(subject), p) > |Rdns(subject)| ==> NameOnTrack(subject, i, p) == Null
    decreases |subject| - i
  {
    hide Rdn, Rdns, Stride;
    if i < |subject| {
      StrideKeepsName(subject, i + 1, p);
      SubjectAt(subject, i);
      var b := Before(subject, i);
      if p < |b| { StridePrefix(b, Rdn(subject[i]) + Rdns(subject[i + 1..]), p); }
    }
  }

  lemma {:induction false} StartsAscend(subject: seq<Attribute>, k: nat, i: nat)
    requires k < i <= |subject|
    ensures |Before(subject, k)| < |Before(subject, i)|
    decreases i - k
  {
    hide Rdns;
    SubjectAt(subject, k);
    if k + 1 < i { StartsAscend(subject, k + 1, i); }
  }

  lemma {:induction false} NameAtStart(subject: seq<Attribute>, i: nat, k: nat)
    requires k <= i < |subject| && IsName(subject[i])
    ensures NameOnTrack(subject, k, |Before(subject, i)|) == Name(subject[i].value)
    decreases i - k
  {
    hide Rdns;
    if k < i {
      NameAtStart(subject, i, k + 1);
      StartsAscend(subject, k, i);
    }
  }

  lemma {:induction false} NothingAtEnd(subject: seq<Attribute>, i: nat)
    requires i <= |subject|
    ensures NameOnTrack(subject, i, |Rdns(subject)|) == Null
    decreases |subject| - i
  {
    hide Rdns;
    if i < |subject| {
      NothingAtEnd(subject, i + 1);
      assert subject[..|subject|] == subject;
      StartsAscend(subject, i, |subject|);
    }
  }

  /** No common name starts where another attribute does, or at a quiet position. */
  lemma OtherStarts(subject: seq<Attribute>, i: nat, p: nat)
    requires AllQuiet(subject) && i <= |subject| && p < |Rdns(subject)|
    requires i < |subject| ==> !IsName(subject[i]) && p == |Before(subject, i)|
    requires i == |subject| ==> Quiet(Rdns(subject), p)
    ensures forall j :: 0 <= j < |subject| && IsName(subject[j]) ==> |Before(subject, j)| != p
  {
    hide Rdns, Rdn, IsQuiet, IsName;
    forall j | 0 <= j < |subject| && IsName(subject[j]) ensures |Before(subject, j)| != p {
      if i < |subject| {
        if j < i { StartsAscend(subject, j, i); } else if i < j { StartsAscend(subject, i, j); }
      } else if |Before(subject, j)| == p {
        var a, rest := subject[j], Rdns(subject[j + 1..]);
        assert a in subject;
        SubjectAt(subject, j);
        StartIsNotQuiet(a, Before(subject, j), rest);
      }
    }
  }

  lemma StartIsNotQuiet(a: Attribute, before: seq<byte>, rest: seq<byte>)
    requires IsQuiet(a)
    ensures |Rdn(a)| > 0 && !Quiet(before + (Rdn(a) + rest), |before|)
  {
    hide Rdn;
    ShortBytes(a);
    var b, p, f := before + (Rdn(a) + rest), |before|, Rdn(a);
    assert forall i :: 0 <= i < 5 ==> b[p + i] == f[i];
  }

  /** At the start of an attribute the scan and the strides go to its value. */
  lemma RoundAtStart(der: seq<byte>, pos: nat, subject: seq<Attribute>, i: nat)
    requires AllQuiet(subject) && i < |subject| && HasAt(der, pos, Rdns(subject)) && |Rdns(subject)| < LIMIT
    ensures var p, b := |Before(subject, i)|, Rdns(subject);
      && p < |b| && p + Stride(b, p) <= |b|
      && ScanStep(der, pos + p) ==
        (if IsName(subject[i]) then Found(subject[i].value) else Go(Int(pos + p + Stride(b, p))))
  {
    hide ScanStep, Rdn, HasAt, IsQuiet;
    var a, b := subject[i], Rdns(subject);
    assert a in subject;
    SubjectAt(subject, i);
    var p, rest := |Before(subject, i)|, Rdns(subject[i + 1..]);
    HasAtSplit(der, pos, Before(subject, i), Rdn(a) + rest);
    HasAtSplit(der, pos + p, Rdn(a), rest);
    var value := RdnStep(der, pos + p, a);
    StrideSuffix(Before(subject, i), Rdn(a) + rest, 0);
    StrideAtStart(a, rest);
  }

  lemma StrideAtStart(a: Attribute, rest: seq<byte>)
    requires IsQuiet(a)
    ensures |Rdn(a)| > 0 && Stride(Rdn(a) + rest, 0) == 6 + |a.oid| && |ValueField(a)| == 2 + |a.value|
    ensures |Rdn(a)| == 8 + |a.oid| + |a.value|
  {
    hide Rdn;
    ShortBytes(a);
    var b, f := Rdn(a) + rest, Rdn(a);
    assert forall i :: 0 <= i < 6 ==> b[i] == f[i];
  }

  /** From any position the scan returns the first common name that the strides from there lead to. */
  lemma {:induction false} ScanText(
    der: seq<byte>, pos: nat, subject: seq<Attribute>, p: nat, oid: seq<byte>, parameters: seq<byte>, key: seq<byte>)
    requires AllQuiet(subject) && HasAt(der, pos, Rdns(subject)) && |Rdns(subject)| < LIMIT && p <= |Rdns(subject)|
    requires |oid| >= 3 && |KeyInfo(oid, parameters, key)| < LIMIT
    requires HasAt(der, pos + |Rdns(subject)|, KeyInfo(oid, parameters, key))
    ensures Scan(der, pos + p, pos + |Rdns(subject)|) == NameOnTrack(subject, 0, p)
    decreases |Rdns(subject)| - p
  {
    hide ScanStep, Scan, Rdns, HasAt, Stride, AllQuiet, KeyInfo, Quiet, OnTrack, IsName;
    var b := Rdns(subject);
    ScanRound(der, pos + p, pos + |b|);
    if p == |b| {
      NothingAtEnd(subject, 0);
    } else {
      var i := QuietOrStart(subject, p);
      if i < |subject| {
        RoundAtStart(der, pos, subject, i);
      } else if p + Stride(b, p) <= |b| {
        RoundInside(der, pos, b, p);
      } else {
        RoundPast(der, pos, b, p, oid, parameters, key);
      }
      if i < |subject| && IsName(subject[i]) {
        NameAtStart(subject, i, 0);
      } else {
        OtherStarts(subject, i, p);
        StrideKeepsName(subject, 0, p);
        if p + Stride(b, p) <= |b| {
          ScanText(der, pos, subject, p + Stride(b, p), oid, parameters, key);
        } else {
          ScanRound(der, ScanStep(der, pos + p).to.v, pos + |b|);
        }
      }
    }
  }

  // ----- Exactly when the name is found

  /** A certificate with short, quiet attributes whose public key follows the subject. */
  predicate HasQuietSubject(c: Certificate, oid: seq<byte>, parameters: seq<byte>, key: seq<byte>) {
    && Valid(c) && AllQuiet(c.subject) && |oid| >= 3
    && KeyInfo(oid, parameters, key) <= c.restOfTbs
  }

  /** The reader returns the first common name to which the strides from the subject's first byte lead exactly, and
      nothing when there is none. */
  lemma CommonNameExactly(c: Certificate, oid: seq<byte>, parameters: seq<byte>, key: seq<byte>)
    requires HasQuietSubject(c, oid, parameters, key)
    ensures CommonName(Encode(c)) == NameOnTrack(c.subject, 0, 0)
  {
    hide CommonName, Encode, Scan, HasAt, KeyInfo, AllQuiet, Rdns;
    var der := Encode(c);
    var start := ScanIsSubject(c);
    var end, info := start + |Rdns(c.subject)|, KeyInfo(oid, parameters, key);
    assert c.restOfTbs + c.trailer == info + (c.restOfTbs + c.trailer)[|info|..];
    HasAtSplit(der, end, info, (c.restOfTbs + c.trailer)[|info|..]);
    assert HasAt(der, end, info);
    HasAtShort(der, end, info);
    ScanText(der, start, c.subject, 0, oid, parameters, key);
  }

  lemma HasAtShort(der: seq<byte>, pos: nat, part: seq<byte>)
    requires HasAt(der, pos, part)
    ensures |part| <= |der|
  {
  }

  /** Strides over such attributes and the scan of the same bytes alone come out at the end together. */
  lemma {:induction false} TrackIsInStep(subject: seq<Attribute>, p: nat)
    requires AllQuiet(subject) && |Rdns(subject)| < LIMIT && p <= |Rdns(subject)|
    requires forall a :: a in subject ==> !IsName(a)
    requires OnTrack(Rdns(subject), p)
    ensures InStep(Rdns(subject), p)
    decreases |Rdns(subject)| - p
  {
    hide ScanStep, Rdns, HasAt, Stride, AllQuiet, Quiet, IsName;
    var b := Rdns(subject);
    if p < |b| {
      WholeIsAt(b);
      var i := QuietOrStart(subject, p);
      if i < |subject| {
        assert subject[i] in subject;
        RoundAtStart(b, 0, subject, i);
      } else {
        RoundInside(b, 0, b, p);
      }
      TrackIsInStep(subject, p + Stride(b, p));
    }
  }

  lemma {:induction false} NoNameFrom(subject: seq<Attribute>, i: nat, p: nat)
    requires i <= |subject| && forall j :: i <= j < |subject| ==> !IsName(subject[j])
    ensures NameOnTrack(subject, i, p) == Null
    decreases |subject| - i
  {
    if i < |subject| { NoNameFrom(subject, i + 1, p); }
  }

  lemma {:induction false} OnlyName(subject: seq<Attribute>, i: nat, k: nat, p: nat)
    requires k <= i < |subject| && IsName(subject[i])
    requires forall j :: 0 <= j < |subject| && j != i ==> !IsName(subject[j])
    ensures NameOnTrack(subject, k, p)
      == if p <= |Before(subject, i)| && OnTrack(Before(subject, i), p) then Name(subject[i].value) else Null
    decreases i - k
  {
    hide Rdns, IsName, OnTrack;
    if k < i { OnlyName(subject, i, k + 1, p); } else { NoNameFrom(subject, i + 1, p); }
  }

  /** A subject of such attributes with one common name, anywhere: it is returned if and only if the attributes before
      it are in step, which strides of one, three or five bytes decide; otherwise nothing is returned. */
  lemma NameFoundExactly(
    c: Certificate, before: seq<Attribute>, name: Attribute, after: seq<Attribute>,
    oid: seq<byte>, parameters: seq<byte>, key: seq<byte>)
    requires HasQuietSubject(c, oid, parameters, key) && c.subject == before + [name] + after && IsName(name)
    requires forall a :: a in before + after ==> !IsName(a)
    ensures CommonName(Encode(c)) == if OnTrack(Rdns(before), 0) then Name(name.value) else Null
    ensures OnTrack(Rdns(before), 0) <==> InStep(Rdns(before), 0)
  {
    hide CommonName, Encode, Rdns, IsQuiet, IsName, OnTrack, InStep, KeyInfo;
    CommonNameExactly(c, oid, parameters, key);
    var i := |before|;
    assert c.subject[..i] == before && c.subject[i] == name;
    forall j | 0 <= j < |c.subject| && j != i ensures !IsName(c.subject[j]) {
      assert c.subject[j] in before + after by {
        if j < i { assert c.subject[j] == before[j]; } else { assert c.subject[j] == after[j - i - 1]; }
      }
    }
    OnlyName(c.subject, i, 0, 0);
    assert |Before(c.subject, i)| < LIMIT by { var s := ScanIsSubject(c); SubjectAt(c.subject, i); }
    assert forall a :: a in before ==> a in c.subject && a in before + after;
    if OnTrack(Rdns(before), 0) {
      TrackIsInStep(before, 0);
    } else if InStep(Rdns(before), 0) {
      NameFoundInStep(c, before, name, after);
    }
  }

  // ----- A value that ends in the digit 1

  lemma {:induction false} StraightOn(b: seq<byte>, p: nat, q: nat)
    requires p <= q <= |b| && forall k :: p <= k < q ==> b[k] != 0x31
    ensures OnTrack(b, p) <==> OnTrack(b, q)
    decreases q - p
  {
    if p < q { StraightOn(b, p + 1, q); }
  }

  /** The digit 1 occurs in the value's encoding as its last byte only, as in the text "Unit 1". */
  predicate EndsInOne(a: Attribute) {
    var v := ValueField(a);
    |a.value| > 0 && v[|v| - 1] == 0x31 && 0x31 !in v[..|v| - 1]
  }

  lemma ToLastByte(a: Attribute, rest: seq<byte>)
    requires IsQuiet(a) && EndsInOne(a)
    ensures |Rdn(a)| > 0 && (Rdn(a) + rest)[|Rdn(a)| - 1] == 0x31
    ensures OnTrack(Rdn(a) + rest, 0) <==> OnTrack(Rdn(a) + rest, |Rdn(a)| - 1)
  {
    hide Rdn, OnTrack, Stride;
    var b, r, v := Rdn(a) + rest, Rdn(a), ValueField(a);
    ShortBytes(a);
    StrideAtStart(a, rest);
    var start := 6 + |a.oid|;
    assert v == [a.tag, |a.value|] + a.value;
    assert forall k :: 0 <= k < |v| ==> b[start + k] == v[k];
    forall k | start <= k < |r| - 1 ensures b[k] != 0x31 {
      assert b[k] == v[..|v| - 1][k - start];
    }
    StraightOn(b, start, |r| - 1);
    assert OnTrack(b, 0) <==> OnTrack(b, start) by { OneStride(b, 0); }
  }

  lemma OneStride(b: seq<byte>, p: nat)
    requires p < |b|
    ensures p + Stride(b, p) <= |b| ==> (OnTrack(b, p) <==> OnTrack(b, p + Stride(b, p)))
    ensures p + Stride(b, p) > |b| ==> !OnTrack(b, p)
  {
    hide Stride;
  }

  /** Such a value swallows the tag of the next attribute. */
  lemma OneHidesTheNext(a: Attribute)
    requires IsQuiet(a) && EndsInOne(a)
    ensures !OnTrack(Rdn(a), 0)
  {
    hide Rdn, OnTrack, EndsInOne;
    ToLastByte(a, []);
    assert Rdn(a) + [] == Rdn(a);
    OneStride(Rdn(a), |Rdn(a)| - 1);
  }

  /** An attribute without a 1 behind such a value brings the scan back into step. */
  lemma BackOnTrack(a: Attribute, next: Attribute)
    requires IsQuiet(a) && EndsInOne(a) && IsQuiet(next) && 0x31 !in Rdn(next)[1..]
    ensures OnTrack(Rdn(a) + Rdn(next), 0)
  {
    hide Rdn, OnTrack, EndsInOne;
    var p, b, f := |Rdn(a)| - 1, Rdn(a) + Rdn(next), Rdn(next);
    ToLastByte(a, f);
    ShortBytes(next);
    assert forall i :: 0 <= i < |f| ==> b[p + 1 + i] == f[i];
    OneStride(b, p);
    var q := p + Stride(b, p);
    forall k | q <= k < |b| ensures b[k] != 0x31 {
      assert b[k] == f[1..][k - p - 2];
    }
    StraightOn(b, q, |b|);
    assert OnTrack(b, |b|) by { AtEnd(b); }
  }

  lemma AtEnd(b: seq<byte>)
    ensures OnTrack(b, |b|)
  {
  }

  lemma OneRdn(a: Attribute)
    ensures Rdns([a]) == Rdn(a)
  {
    hide Rdn;
    assert [a][1..] == [];
    assert Rdns([a]) == Rdn(a) + Rdns([]);
  }

  lemma {:induction false} TrackSuffix(a: seq<byte>, b: seq<byte>, p: nat)
    requires p <= |b|
    ensures OnTrack(a + b, |a| + p) <==> OnTrack(b, p)
    decreases |b| - p
  {
    hide Stride;
    if p < |b| {
      StrideSuffix(a, b, p);
      if p + Stride(b, p) <= |b| { TrackSuffix(a, b, p + Stride(b, p)); }
    }
  }

  /** Behind bytes that are crossed exactly the strides start afresh. */
  lemma {:induction false} TrackConcat(a: seq<byte>, b: seq<byte>, p: nat)
    requires p <= |a| && OnTrack(a, p)
    ensures OnTrack(a + b, p) <==> OnTrack(b, 0)
    decreases |a| - p
  {
    hide Stride;
    if p < |a| {
      StridePrefix(a, b, p);
      TrackConcat(a, b, p + Stride(a, p));
    } else {
      TrackSuffix(a, b, 0);
    }
  }

  /** Behind attributes in step, such a value puts the scan out of step, and one more attribute puts it back. */
  lemma TrailingTrack(before: seq<Attribute>, a: Attribute, next: seq<Attribute>)
    requires OnTrack(Rdns(before), 0) && IsQuiet(a) && EndsInOne(a)
    requires |next| <= 1 && (next != [] ==> IsQuiet(next[0]) && 0x31 !in Rdn(next[0])[1..])
    ensures OnTrack(Rdns(before + [a] + next), 0) <==> next != []
  {
    hide Rdn, Rdns, IsQuiet, OnTrack, EndsInOne;
    OneRdn(a);
    RdnsOfConcat(before, [a]);
    if next == [] {
      assert before + [a] + next == before + [a];
      TrackConcat(Rdns(before), Rdn(a), 0);
      OneHidesTheNext(a);
    } else {
      assert next == [next[0]];
      OneRdn(next[0]);
      RdnsOfConcat(before + [a], next);
      assert Rdns(before + [a] + next) == Rdns(before) + (Rdn(a) + Rdn(next[0]));
      TrackConcat(Rdns(before), Rdn(a) + Rdn(next[0]), 0);
      BackOnTrack(a, next[0]);
    }
  }

  /** Behind attributes in step, a name right behind a value that ends in the digit 1 is missed. Behind one more
      attribute it is found. */
  lemma TrailingOne(
    c: Certificate, before: seq<Attribute>, a: Attribute, next: seq<Attribute>, name: Attribute, after: seq<Attribute>,
    oid: seq<byte>, parameters: seq<byte>, key: seq<byte>)
    requires HasQuietSubject(c, oid, parameters, key) && c.subject == before + [a] + next + [name] + after
    requires IsName(name) && forall x :: x in before + [a] + next + after ==> !IsName(x)
    requires OnTrack(Rdns(before), 0) && EndsInOne(a)
    requires |next| <= 1 && (next != [] ==> 0x31 !in Rdn(next[0])[1..])
    ensures CommonName(Encode(c)) == if next == [] then Null else Name(name.value)
  {
    hide CommonName, Encode, Rdn, Rdns, IsQuiet, IsName, OnTrack, InStep, KeyInfo, EndsInOne, Valid;
    assert a in c.subject && (next != [] ==> next[0] in c.subject);
    NameFoundExactly(c, before + [a] + next, name, after, oid, parameters, key);
    TrailingTrack(before, a, next);
  }

  // ----- A certificate whose common name is missed

  /** The text "Unit 1". */
  const UNIT_1: seq<byte> := [0x55, 0x6e, 0x69, 0x74, 0x20, 0x31]

  /** An identifier and key bits, as short as any. */
  const ALGORITHM: seq<byte> := [0x2b, 0x65, 0x70]

  /** The organizational unit "Unit 1", then the common name "a". */
  const UNIT_1_CERTIFICATE := Certificate(
    None, [1], [], [], SOME_DAY, SOME_DAY,
    [Attribute([0x55, 0x04, 0x0b], 0x0c, UNIT_1), Attribute(COMMON_NAME, 0x0c, [0x61])], KeyInfo(ALGORITHM, [], []), [])

  lemma ShortKey()
    ensures |KeyInfo(ALGORITHM, [], [])| < 100
  {
    hide EncodeLength;
    ShortTlv(0x06, ALGORITHM);
    ShortTlv(0x30, Tlv(0x06, ALGORITHM) + []);
    ShortTlv(0x30, Tlv(0x30, Tlv(0x06, ALGORITHM) + []) + []);
  }

  lemma Unit1IsText()
    ensures AllQuiet(UNIT_1_CERTIFICATE.subject) && EndsInOne(UNIT_1_CERTIFICATE.subject[0])
    ensures !IsName(UNIT_1_CERTIFICATE.subject[0])
  {
    var unit, name := UNIT_1_CERTIFICATE.subject[0], UNIT_1_CERTIFICATE.subject[1];
    hide Rdn, IsQuiet;
    assert IsText(unit) && IsText(name);
    TextIsQuiet(unit);
    TextIsQuiet(name);
    assert unit.oid[2] != COMMON_NAME[2];
    assert ValueField(unit) == [0x0c, 6] + UNIT_1;
    var front := ValueField(unit)[..7];
    assert front == [0x0c, 6, 0x55, 0x6e, 0x69, 0x74, 0x20];
  }

  lemma NothingToCross()
    ensures Rdns([]) == [] && OnTrack([], 0)
  {
  }

  /** A valid certificate with a common name for which the reader returns nothing. */
  lemma Unit1HidesTheName()
    ensures Valid(UNIT_1_CERTIFICATE) && FirstName(UNIT_1_CERTIFICATE.subject) == Name([0x61])
    ensures CommonName(Encode(UNIT_1_CERTIFICATE)) == Null
  {
    hide CommonName, Encode, AllQuiet, IsQuiet, EndsInOne, KeyInfo, Rdn, Rdns, OnTrack;
    var c := UNIT_1_CERTIFICATE;
    ShortKey();
    SmallIsValid(c);
    Unit1IsText();
    assert c.subject[1..][0] == c.subject[1];
    assert c.subject == [] + [c.subject[0]] + [] + [c.subject[1]] + [];
    assert OnTrack(Rdns([]), 0) by { NothingToCross(); }
    TrailingOne(c, [], c.subject[0], [], c.subject[1], [], ALGORITHM, [], []);
  }
}
