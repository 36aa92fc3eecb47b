/** When the byte scan for the common name stays in step with the fields of the subject. */
module DerNames {
  import opened Text
  import opened DerReader
  import opened DerScan
  import opened DerEncoding

  predicate IsName(a: Attribute) {
    a.oid == COMMON_NAME
  }

  /** Tag, length and contents of an attribute's value. */
  function ValueField(a: Attribute): seq<byte> {
    Tlv(a.tag, a.value)
  }

  /** One round of the loop, whichever way it leads. */
  lemma ScanRound(der: seq<byte>, pos: int, end: int)
    ensures pos >= end ==> Scan(der, pos, end) == Null
    ensures pos < end ==> var visit := ScanStep(der, pos);
      && (visit.Found? ==> Scan(der, pos, end) == Name(visit.name))
      && (visit.Go? && visit.to.Int? ==> Scan(der, pos, end) == Scan(der, visit.to.v, end))
  {
    hide ScanStep, Scan, Next, Ending;
    NextIs(der, pos, end);
    ScanOnce(der, pos, end);
  }

  /** The answer the subject calls for: the value of its first common name. */
  function FirstName(subject: seq<Attribute>): Outcome {
    if subject == [] then Null
    else if IsName(subject[0]) then Name(subject[0].value)
    else FirstName(subject[1..])
  }

  /** The scan, confined to the bytes v from position p, comes out exactly at their end. */
  predicate InStep(v: seq<byte>, p: nat)
    requires p <= |v|
    decreases |v| - p
  {
    || p == |v|
    || var visit := ScanStep(v, p);
       && visit.Go? && visit.to.Int?
       && p < visit.to.v <= |v|
       && InStep(v, visit.to.v)
  }

  /** Every value before the first common name is walked over exactly. */
  predicate InStepBeforeName(subject: seq<Attribute>) {
    subject != [] && !IsName(subject[0]) ==>
      InStep(ValueField(subject[0]), 0) && InStepBeforeName(subject[1..])
  }

  // ----- One attribute

  /** At an attribute the scan finds the name or stands before the value. */
  lemma RdnStep(der: seq<byte>, pos: nat, a: Attribute) returns (value: nat)
    requires HasAt(der, pos, Rdn(a)) && |Rdn(a)| < LIMIT
    ensures pos < value && value + |ValueField(a)| == pos + |Rdn(a)| && HasAt(der, value, ValueField(a))
    ensures ScanStep(der, pos) == if IsName(a) then Found(a.value) else Go(Int(value))
  {
    hide LengthAt, EncodeLength, HasAt, Slice;
    var oid := Tlv(0x06, a.oid);
    var pair := Tlv(0x30, oid + ValueField(a));
    FieldRoundTrip(der, pos, 0x31, pair);
    var inSet := pos + 1 + |EncodeLength(|pair|)|;
    FieldRoundTrip(der, inSet, 0x30, oid + ValueField(a));
    var inSequence := inSet + 1 + |EncodeLength(|oid + ValueField(a)|)|;
    HasAtSplit(der, inSequence, oid, ValueField(a));
    FieldRoundTrip(der, inSequence, 0x06, a.oid);
    value := inSequence + |oid|;
    FieldRoundTrip(der, value, a.tag, a.value);
  }

  // ----- What happens inside a value depends on the value alone

  lemma AtLocal(v: seq<byte>, der: seq<byte>, base: nat, p: nat)
    requires HasAt(der, base, v)
    ensures p < |v| ==> At(der, Int(base + p)) == At(v, Int(p)) == Int(v[p])
  {
    if p < |v| {
      assert der[base + p] == der[base..base + |v|][p] == v[p];
    }
  }

  lemma {:induction false} AccumulateLocal(v: seq<byte>, der: seq<byte>, base: nat, pos: nat, n: nat, len: Num)
    requires HasAt(der, base, v) && pos + n <= |v|
    ensures Accumulate(der, base + pos, n, len) == Accumulate(v, pos, n, len)
    decreases n
  {
    hide HasAt, At, ShiftLeft8;
    if n > 0 {
      AtLocal(v, der, base, pos);
      AccumulateLocal(v, der, base, pos + 1, n - 1, Plus(ShiftLeft8(len), At(v, Int(pos))));
    }
  }

  lemma LengthLocal(v: seq<byte>, der: seq<byte>, base: nat, pos: nat)
    requires HasAt(der, base, v)
    requires LengthAt(v, Int(pos)).offset.v <= |v|
    ensures var local := LengthAt(v, Int(pos));
      LengthAt(der, Int(base + pos)) == Length(local.length, Int(base + local.offset.v))
  {
    hide Accumulate;
    assert der[base + pos] == der[base..base + |v|][pos] == v[pos];
    if v[pos] >= 0x80 {
      AccumulateLocal(v, der, base, pos + 1, v[pos] % 0x80, Int(0));
    }
  }

  /** A length that reaches past the bytes is not a number. */
  lemma {:induction false} AccumulatePastEnd(v: seq<byte>, pos: nat, n: nat, len: Num)
    requires n > 0 && pos + n > |v|
    ensures Accumulate(v, pos, n, len).NaN?
    decreases n
  {
    var next := Plus(ShiftLeft8(len), At(v, Int(pos)));
    if n > 1 {
      AccumulatePastEnd(v, pos + 1, n - 1, next);
    } else {
      assert Accumulate(v, pos + 1, 0, next) == next;
    }
  }

  lemma LengthWithin(v: seq<byte>, pos: nat)
    ensures LengthAt(v, Int(pos)).offset.Int? && LengthAt(v, Int(pos)).offset.v > pos
    ensures LengthAt(v, Int(pos)).length.Int? ==> LengthAt(v, Int(pos)).offset.v <= |v|
  {
    if pos < |v| && v[pos] >= 0x80 {
      var n := v[pos] % 0x80;
      if n > 0 && pos + 1 + n > |v| {
        AccumulatePastEnd(v, pos + 1, n, Int(0));
      }
    }
  }

  lemma EnterLocal(v: seq<byte>, der: seq<byte>, base: nat, pos: nat)
    requires HasAt(der, base, v)
    ensures Enter(v, Int(pos)).Int? && Enter(v, Int(pos)).v > pos + 1
    ensures Enter(v, Int(pos)).v <= |v| ==> Enter(der, Int(base + pos)) == Int(base + Enter(v, Int(pos)).v)
  {
    hide LengthAt;
    LengthWithin(v, pos + 1);
    if Enter(v, Int(pos)).v <= |v| {
      LengthLocal(v, der, base, pos + 1);
    }
  }

  lemma FieldLocal(v: seq<byte>, der: seq<byte>, base: nat, pos: nat)
    requires HasAt(der, base, v)
    requires SkipField(v, Int(pos)).Int? && 0 <= SkipField(v, Int(pos)).v <= |v|
    ensures SkipField(der, Int(base + pos)) == Int(base + SkipField(v, Int(pos)).v)
    ensures Contents(der, Int(base + pos)) == Contents(v, Int(pos))
  {
    hide LengthAt, HasAt, Slice;
    LengthWithin(v, pos + 1);
    LengthLocal(v, der, base, pos + 1);
    SliceLocal(v, der, base, LengthAt(v, Int(pos + 1)).offset.v, SkipField(v, Int(pos)).v);
  }

  lemma SliceLocal(v: seq<byte>, der: seq<byte>, base: nat, i: nat, j: nat)
    requires HasAt(der, base, v) && i <= |v| && j <= |v|
    ensures Slice(der, Int(base + i), Int(base + j)) == Slice(v, Int(i), Int(j))
  {
    if i < j {
      forall k | 0 <= k < j - i ensures der[base + i..base + j][k] == v[i..j][k] {
        AtLocal(v, der, base, i + k);
      }
      assert der[base + i..base + j] == v[i..j];
    }
  }

  lemma ScanStepLocal(v: seq<byte>, der: seq<byte>, base: nat, p: nat)
    requires HasAt(der, base, v) && p < |v|
    requires ScanStep(v, p).Go? && ScanStep(v, p).to.Int? && p < ScanStep(v, p).to.v <= |v|
    ensures ScanStep(der, base + p) == Go(Int(base + ScanStep(v, p).to.v))
  {
    hide LengthAt, Enter, SkipField, Contents;
    AtLocal(v, der, base, p);
    if v[p] == 0x31 {
      EnterLocal(v, der, base, p);
      var inSet := Enter(v, Int(p)).v;
      EnterLocal(v, der, base, inSet);
      AtLocal(v, der, base, inSet);
      if At(v, Int(inSet)) == Int(0x30) {
        var inSequence := Enter(v, Int(inSet)).v;
        AtLocal(v, der, base, inSequence);
        if At(v, Int(inSequence)) == Int(0x06) {
          FieldLocal(v, der, base, inSequence);
        }
      }
    }
  }

  /** A value in step is crossed, wherever it stands. */
  lemma {:induction false} CrossValue(v: seq<byte>, p: nat, der: seq<byte>, base: nat, end: int)
    requires p <= |v| && InStep(v, p) && HasAt(der, base, v) && base + |v| <= end
    ensures Scan(der, base + p, end) == Scan(der, base + |v|, end)
    decreases |v| - p
  {
    hide ScanStep, HasAt, Scan;
    if p < |v| {
      ScanStepLocal(v, der, base, p);
      ScanRound(der, base + p, end);
      CrossValue(v, ScanStep(v, p).to.v, der, base, end);
    }
  }

  // ----- The whole subject

  lemma {:induction false} ScanSubject(der: seq<byte>, pos: nat, subject: seq<Attribute>)
    requires HasAt(der, pos, Rdns(subject)) && |Rdns(subject)| < LIMIT
    requires InStepBeforeName(subject)
    ensures Scan(der, pos, pos + |Rdns(subject)|) == FirstName(subject)
    decreases |subject|
  {
    hide ScanStep, HasAt, InStep, Rdn, Tlv, Scan;
    ScanRound(der, pos, pos + |Rdns(subject)|);
    if subject != [] {
      var a, rest := subject[0], Rdns(subject[1..]);
      HasAtSplit(der, pos, Rdn(a), rest);
      var value := RdnStep(der, pos, a);
      if !IsName(a) {
        CrossValue(ValueField(a), 0, der, value, pos + |Rdns(subject)|);
        ScanSubject(der, pos + |Rdn(a)|, subject[1..]);
      }
    }
  }

  /** The reader's scan covers exactly the encoded names. */
  lemma ScanIsSubject(c: Certificate) returns (start: nat)
    requires Valid(c)
    ensures HasAt(Encode(c), start, Rdns(c.subject)) && |Rdns(c.subject)| < LIMIT
    ensures var end := start + |Rdns(c.subject)|;
      HasAt(Encode(c), end, c.restOfTbs + c.trailer) && end + |c.restOfTbs + c.trailer| == |Encode(c)|
    ensures CommonName(Encode(c)) == Scan(Encode(c), start, start + |Rdns(c.subject)|)
  {
    hide EncodeLength, HasAt, LengthAt, SkipField, Contents, Enter, Scan, AfterVersion, Encode, Rdns, Body, TimeField;
    var der := Encode(c);
    var first := VersionRoundTrip(c);
    BodyIsShort(c);
    var validity, subject := FieldsRoundTrip(der, c, first);
    FieldRoundTrip(der, validity, 0x30, TimeField(c.notBefore) + TimeField(c.notAfter));
    FieldRoundTrip(der, subject, 0x30, Rdns(c.subject));
    start := subject + 1 + |EncodeLength(|Rdns(c.subject)|)|;
    assert |Tlv(0x30, Rdns(c.subject))| == 1 + |EncodeLength(|Rdns(c.subject)|)| + |Rdns(c.subject)|;
    HasAtSplit(der, start + |Rdns(c.subject)|, c.restOfTbs, c.trailer);
  }

  /** For every encoded certificate whose values before the first common name are in step, the reader
      returns that name, and nothing when there is none. */
  lemma CommonNameRoundTrip(c: Certificate)
    requires Valid(c) && InStepBeforeName(c.subject)
    ensures CommonName(Encode(c)) == FirstName(c.subject)
  {
    hide CommonName, Encode, Scan, InStepBeforeName;
    var start := ScanIsSubject(c);
    ScanSubject(Encode(c), start, c.subject);
  }

  /** In particular when no byte of those values is the tag of a SET. */
  lemma {:induction false} NoSetTagInStep(v: seq<byte>, p: nat)
    requires p <= |v| && 0x31 !in v
    ensures InStep(v, p)
    decreases |v| - p
  {
    if p < |v| {
      assert v[p] in v;
      assert ScanStep(v, p) == Go(Int(p + 1));
      NoSetTagInStep(v, p + 1);
    }
  }

  // ----- Any values before the name

  lemma {:induction false} RdnsOfConcat(a: seq<Attribute>, b: seq<Attribute>)
    ensures Rdns(a + b) == Rdns(a) + Rdns(b)
  {
    if a == [] {
      assert a + b == b;
    } else {
      assert (a + b)[1..] == a[1..] + b;
      RdnsOfConcat(a[1..], b);
    }
  }

  /** Whatever the bytes before it and after it: a common name is returned when the walk over the encoded
      attributes before it, taken alone, comes out exactly at their end. */
  lemma NameFoundInStep(c: Certificate, before: seq<Attribute>, name: Attribute, after: seq<Attribute>)
    requires Valid(c) && c.subject == before + [name] + after
    requires IsName(name) && InStep(Rdns(before), 0)
    ensures CommonName(Encode(c)) == Name(name.value)
  {
    hide CommonName, Encode, ScanStep, HasAt, InStep, Rdn, Scan;
    var der := Encode(c);
    var start := ScanIsSubject(c);
    var end := start + |Rdns(c.subject)|;
    assert c.subject == before + ([name] + after) && ([name] + after)[1..] == after;
    RdnsOfConcat(before, [name] + after);
    HasAtSplit(der, start, Rdns(before), Rdn(name) + Rdns(after));
    HasAtSplit(der, start + |Rdns(before)|, Rdn(name), Rdns(after));
    CrossValue(Rdns(before), 0, der, start, end);
    var ignored := RdnStep(der, start + |Rdns(before)|, name);
    ScanRound(der, start + |Rdns(before)|, end);
  }

  lemma NotASet(der: seq<byte>, pos: nat)
    requires pos < |der| && der[pos] != 0x31
    ensures ScanStep(der, pos) == Go(Int(pos + 1))
  {
  }

  /** A round over short lengths that meets no identifier reads at most five bytes. */
  lemma ShortStep(der: seq<byte>, pos: nat)
    requires pos + 2 < |der| && der[pos] == 0x31 && der[pos + 1] < 0x80
    ensures der[pos + 2] != 0x30 ==> ScanStep(der, pos) == Go(Int(pos + 3))
    ensures pos + 4 < |der| && der[pos + 2] == 0x30 && der[pos + 3] < 0x80 && der[pos + 4] != 0x06 ==>
      ScanStep(der, pos) == Go(Int(pos + 5))
  {
    hide Accumulate, Contents, SkipField;
    assert Enter(der, Int(pos)) == Int(pos + 2);
    if pos + 4 < |der| && der[pos + 3] < 0x80 {
      assert Enter(der, Int(pos + 2)) == Int(pos + 4);
    }
  }
}
