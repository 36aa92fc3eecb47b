/** When the loop over a subject ends, and a certificate on which it never does. */
module DerLoop {
  import opened Text
  import opened DerReader
  import opened DerScan
  import opened DerEncoding
  import opened DerNames

  /** The identifier tag that the round at pos comes to; None when another tag is met first. */
  function IdentifierAt(der: seq<byte>, pos: int): Option<Num> {
    if At(der, Int(pos)) != Int(0x31) then None
    else
      var inSet := Enter(der, Int(pos));
      if At(der, inSet) != Int(0x30) then None
      else
        var inSequence := Enter(der, inSet);
        if At(der, inSequence) != Int(0x06) then None else Some(inSequence)
  }

  /** The identifier met from pos is no common name, and its length leads back to pos or before. */
  predicate LeadsBack(der: seq<byte>, pos: int) {
    var identifier := IdentifierAt(der, pos);
    && identifier.Some? && Contents(der, identifier.value) != COMMON_NAME
    && SkipField(der, identifier.value).Int? && SkipField(der, identifier.value).v <= pos
  }

  /** A round leads backwards, or nowhere, exactly where the identifier it meets does. */
  lemma RoundLeadsBack(der: seq<byte>, pos: int)
    ensures var visit := ScanStep(der, pos);
      visit.Go? && visit.to.Int? && visit.to.v <= pos <==> LeadsBack(der, pos)
  {
    hide LengthAt, Contents;
    if At(der, Int(pos)) == Int(0x31) {
      LengthWithin(der, pos + 1);
      LengthWithin(der, Enter(der, Int(pos)).v + 1);
    }
  }

  // ----- Exactly when the loop is endless

  /** The loop comes to one of its offsets again. */
  ghost predicate ComesBack(der: seq<byte>, pos: int, end: int) {
    exists m: nat, n: nat ::
      m < n && After(der, pos, end, m).Some? && After(der, pos, end, m) == After(der, pos, end, n)
  }

  /** The offsets of the first n rounds. */
  ghost function Offsets(der: seq<byte>, pos: int, end: int, n: nat): set<int>
    requires NeverEnds(der, pos, end)
  {
    if n == 0 then {} else Offsets(der, pos, end, n - 1) + {After(der, pos, end, n - 1).value}
  }

  lemma {:induction false} OffsetsAre(der: seq<byte>, pos: int, end: int, n: nat, q: int) returns (m: nat)
    requires NeverEnds(der, pos, end) && q in Offsets(der, pos, end, n)
    ensures m < n && After(der, pos, end, m) == Some(q)
    decreases n
  {
    hide After;
    if q in Offsets(der, pos, end, n - 1) {
      m := OffsetsAre(der, pos, end, n - 1, q);
    } else {
      m := n - 1;
      assert After(der, pos, end, m).Some?;
    }
  }

  lemma {:induction false} OffsetsDiffer(der: seq<byte>, pos: int, end: int, n: nat)
    requires NeverEnds(der, pos, end)
    requires !ComesBack(der, pos, end)
    ensures |Offsets(der, pos, end, n)| == n
    decreases n
  {
    hide After;
    if n > 0 {
      OffsetsDiffer(der, pos, end, n - 1);
      var q := After(der, pos, end, n - 1).value;
      assert After(der, pos, end, n - 1) == Some(q);
      if q in Offsets(der, pos, end, n - 1) {
        var m := OffsetsAre(der, pos, end, n - 1, q);
        assert false;
      }
    }
  }

  lemma {:induction false} OffsetsBounded(der: seq<byte>, pos: int, end: int, n: nat)
    requires pos >= LOWEST && NeverEnds(der, pos, end)
    ensures LOWEST <= After(der, pos, end, n).value < end
    decreases n
  {
    hide After, Next, ScanStep;
    if n == 0 {
      ZeroRounds(der, pos, end);
    } else {
      OffsetsBounded(der, pos, end, n - 1);
      RoundsOn(der, pos, end, n - 1);
      NextBounded(der, After(der, pos, end, n - 1).value, end);
    }
    RoundsOn(der, pos, end, n);
    NextIs(der, After(der, pos, end, n).value, end);
  }

  /** The offset after one more round. */
  lemma RoundsOn(der: seq<byte>, pos: int, end: int, n: nat)
    requires After(der, pos, end, n).Some?
    ensures After(der, pos, end, n + 1) == Next(der, After(der, pos, end, n).value, end)
  {
    hide After, Next;
    AfterMore(der, pos, end, n, 1);
    OneMore(der, After(der, pos, end, n).value, end);
  }

  /** The loop never ends if and only if it comes to some offset twice. */
  lemma EndlessExactly(der: seq<byte>, pos: int, end: int)
    requires pos >= LOWEST
    ensures Scan(der, pos, end) == Endless <==> ComesBack(der, pos, end)
  {
    hide After, Scan;
    EndlessGoesOn(der, pos, end);
    if Scan(der, pos, end) == Endless && !ComesBack(der, pos, end) {
      OffsetsBounded(der, pos, end, 0);
      var n := end - LOWEST + 1;
      OffsetsDiffer(der, pos, end, n);
      forall q | q in Offsets(der, pos, end, n) ensures LOWEST <= q < end {
        var m := OffsetsAre(der, pos, end, n, q);
        OffsetsBounded(der, pos, end, m);
      }
      SetInInterval(Offsets(der, pos, end, n), LOWEST, end);
      assert false;
    }
    if ComesBack(der, pos, end) {
      var m: nat, n: nat :| m < n && After(der, pos, end, m).Some?
        && After(der, pos, end, m) == After(der, pos, end, n);
      TwiceIsEndless(der, pos, end, m, n);
    }
  }

  /** Between two visits to one offset some round leads back. */
  lemma {:induction false} CycleLeadsBack(der: seq<byte>, pos: int, end: int, m: nat, n: nat) returns (i: nat)
    requires m < n && After(der, pos, end, m).Some? && After(der, pos, end, n).Some?
    requires After(der, pos, end, n).value <= After(der, pos, end, m).value
    ensures m <= i < n && After(der, pos, end, i).Some? && LeadsBack(der, After(der, pos, end, i).value)
    decreases n - m
  {
    hide After, Next, ScanStep, LeadsBack;
    AfterFewer(der, pos, end, m + 1, n);
    RoundsOn(der, pos, end, m);
    var q := After(der, pos, end, m).value;
    if After(der, pos, end, m + 1).value <= q {
      NextIs(der, q, end);
      RoundLeadsBack(der, q);
      i := m;
    } else {
      i := CycleLeadsBack(der, pos, end, m + 1, n);
    }
  }

  // ----- Lengths below 2^31

  /** No identifier tag among the first n bytes is followed by a length that is read as a negative number. */
  predicate LengthsFit(b: seq<byte>, n: nat) {
    forall p: nat :: p < n && p < |b| && b[p] == 0x06 && LengthAt(b, Int(p + 1)).length.Int? ==>
      LengthAt(b, Int(p + 1)).length.v >= 0
  }

  lemma {:induction false} AccumulateSuffix(b: seq<byte>, der: seq<byte>, base: nat, pos: nat, n: nat, len: Num)
    requires HasAt(der, base, b) && base + |b| == |der|
    ensures Accumulate(der, base + pos, n, len) == Accumulate(b, pos, n, len)
    decreases n
  {
    hide HasAt, ShiftLeft8;
    if n > 0 {
      AtLocal(b, der, base, pos);
      AccumulateSuffix(b, der, base, pos + 1, n - 1, Plus(ShiftLeft8(len), At(b, Int(pos))));
    }
  }

  lemma LengthSuffix(b: seq<byte>, der: seq<byte>, base: nat, pos: nat)
    requires HasAt(der, base, b) && base + |b| == |der|
    ensures LengthAt(der, Int(base + pos)).length == LengthAt(b, Int(pos)).length
  {
    hide HasAt, Accumulate;
    AtLocal(b, der, base, pos);
    if pos < |b| && b[pos] >= 0x80 {
      AccumulateSuffix(b, der, base, pos + 1, b[pos] % 0x80, Int(0));
    }
  }

  lemma EnterIsNear(der: seq<byte>, pos: nat)
    ensures Enter(der, Int(pos)).Int? && pos < Enter(der, Int(pos)).v <= pos + 129
  {
    hide Accumulate;
  }

  /** The identifier of a round lies at most 258 bytes ahead, and leads back only by a negative length. */
  lemma LeadsBackNearby(der: seq<byte>, pos: nat) returns (p: nat)
    requires LeadsBack(der, pos)
    ensures pos < p <= pos + 258 && p < |der| && der[p] == 0x06
    ensures LengthAt(der, Int(p + 1)).length.Int? && LengthAt(der, Int(p + 1)).length.v < 0
  {
    hide Enter, LengthAt, Contents;
    EnterIsNear(der, pos);
    EnterIsNear(der, Enter(der, Int(pos)).v);
    p := IdentifierAt(der, pos).value.v;
    LengthWithin(der, p + 1);
  }

  /** Where no round leads back the loop ends. */
  lemma {:induction false} ForwardEnds(der: seq<byte>, pos: nat, end: int)
    requires forall q :: pos <= q < end ==> !LeadsBack(der, q)
    ensures Scan(der, pos, end) != Endless
    decreases end - pos
  {
    hide ScanStep, LeadsBack, Scan, Next, Ending;
    NextIs(der, pos, end);
    ScanOnce(der, pos, end);
    if pos < end {
      RoundLeadsBack(der, pos);
      var visit := ScanStep(der, pos);
      if visit.Go? && visit.to.Int? { ForwardEnds(der, visit.to.v, end); }
    }
  }

  /** For every encoded certificate: the loop over the subject never ends if and only if it comes to some offset twice,
      and then it comes to an offset from which an identifier's length of 2^31 or more leads back. */
  lemma LoopEndsExactly(c: Certificate) returns (start: nat)
    requires Valid(c)
    ensures HasAt(Encode(c), start, Rdns(c.subject) + (c.restOfTbs + c.trailer))
    ensures start + |Rdns(c.subject) + (c.restOfTbs + c.trailer)| == |Encode(c)|
    ensures var der, end := Encode(c), start + |Rdns(c.subject)|;
      && CommonName(der) == Scan(der, start, end)
      && (CommonName(der) == Endless <==> NeverEnds(der, start, end))
      && (CommonName(der) == Endless <==> ComesBack(der, start, end))
      && (CommonName(der) == Endless ==>
            exists n: nat :: After(der, start, end, n).Some? && LeadsBack(der, After(der, start, end, n).value))
  {
    hide Scan, Encode, CommonName, HasAt, LeadsBack, Rdns, After;
    start := ScanIsSubject(c);
    var der, end := Encode(c), start + |Rdns(c.subject)|;
    HasAtSplit(der, start, Rdns(c.subject), c.restOfTbs + c.trailer);
    EndlessGoesOn(der, start, end);
    EndlessExactly(der, start, end);
    if ComesBack(der, start, end) {
      var m: nat, n: nat :|
        m < n && After(der, start, end, m).Some? && After(der, start, end, m) == After(der, start, end, n);
      var i := CycleLeadsBack(der, start, end, m, n);
    }
  }

  /** For every encoded certificate, whatever the text of its names: the loop ends when no identifier tag in the
      subject or in the 258 bytes behind it is followed by a length of 2^31 or more. */
  lemma LoopEnds(c: Certificate)
    requires Valid(c) && LengthsFit(Rdns(c.subject) + (c.restOfTbs + c.trailer), |Rdns(c.subject)| + 258)
    ensures CommonName(Encode(c)) != Endless
  {
    hide Scan, LengthAt, Encode, CommonName, HasAt, LeadsBack, Rdns, After, ComesBack;
    var der := Encode(c);
    var start := LoopEndsExactly(c);
    var b, end := Rdns(c.subject) + (c.restOfTbs + c.trailer), start + |Rdns(c.subject)|;
    forall q | start <= q < end ensures !LeadsBack(der, q) {
      if LeadsBack(der, q) {
        var p := LeadsBackNearby(der, q);
        AtLocal(b, der, start, p - start);
        LengthSuffix(b, der, start, p + 1 - start);
        assert false;
      }
    }
    ForwardEnds(der, start, end);
  }

  // ----- A longer length

  /** A SET, a SEQUENCE and an identifier whose length of 2^32 - 10 is read as -10. */
  const ENDLESS: seq<byte> := [0x31, 0x09, 0x30, 0x07, 0x06, 0x84, 0xff, 0xff, 0xff, 0xf6, 0x00]

  lemma EndlessLength()
    ensures Accumulate(ENDLESS, 6, 4, Int(0)) == Int(-10)
  {
    hide ToInt32;
    var der := ENDLESS;
    SmallShifts();
    assert Accumulate(der, 10, 0, Int(-10)) == Int(-10);
    assert Accumulate(der, 9, 1, Int(16777215)) == Accumulate(der, 10, 0, Int(-10));
    assert Accumulate(der, 8, 2, Int(65535)) == Accumulate(der, 9, 1, Int(16777215));
    assert Accumulate(der, 7, 3, Int(255)) == Accumulate(der, 8, 2, Int(65535));
  }

  lemma SmallShifts()
    ensures ToInt32(0) == 0 && ToInt32(255) == 255 && ToInt32(65280) == 65280 && ToInt32(65535) == 65535
    ensures ToInt32(16776960) == 16776960 && ToInt32(16777215) == 16777215 && ToInt32(0xffff_ff00) == -256
  {
  }

  lemma EndlessOffsets()
    ensures Enter(ENDLESS, Int(0)) == Int(2) && Enter(ENDLESS, Int(2)) == Int(4)
    ensures LengthAt(ENDLESS, Int(5)) == Length(Int(-10), Int(10))
  {
    hide Accumulate;
    EndlessLength();
    assert At(ENDLESS, Int(1)) == Int(0x09) && At(ENDLESS, Int(3)) == Int(0x07) && At(ENDLESS, Int(5)) == Int(0x84);
  }

  /** Wherever these bytes stand, the round at their start comes back to their start. */
  lemma EndlessStep(der: seq<byte>, base: nat)
    requires HasAt(der, base, ENDLESS)
    ensures ScanStep(der, base) == Go(Int(base))
  {
    hide LengthAt, HasAt;
    EndlessOffsets();
    EnterLocal(ENDLESS, der, base, 0);
    EnterLocal(ENDLESS, der, base, 2);
    LengthLocal(ENDLESS, der, base, 5);
    AtLocal(ENDLESS, der, base, 0);
    AtLocal(ENDLESS, der, base, 2);
    AtLocal(ENDLESS, der, base, 4);
    assert Contents(der, Int(base + 4)) == [];
  }

  /** Bytes in step are crossed in some number of rounds. */
  lemma {:induction false} CrossRounds(v: seq<byte>, p: nat, der: seq<byte>, base: nat, end: int) returns (n: nat)
    requires p <= |v| && InStep(v, p) && HasAt(der, base, v) && base + |v| <= end
    ensures After(der, base + p, end, n) == Some(base + |v|)
    decreases |v| - p
  {
    hide ScanStep, HasAt, Next;
    if p < |v| {
      ScanStepLocal(v, der, base, p);
      NextIs(der, base + p, end);
      n := CrossRounds(v, ScanStep(v, p).to.v, der, base, end);
      n := n + 1;
    } else {
      n := 0;
    }
  }

  /** From the start of an attribute with this value it is three rounds to the value's bytes, and none leads on. */
  lemma EndlessRounds(der: seq<byte>, start: int, end: int, n: nat, pos: nat, value: nat, a: Attribute)
    requires After(der, start, end, n) == Some(pos) && ScanStep(der, pos) == Go(Int(value))
    requires a.tag != 0x31 && a.value == ENDLESS && HasAt(der, value, ValueField(a))
    requires pos < end && value + |ValueField(a)| <= end
    ensures After(der, start, end, n + 3) == Some(value + 2) && Next(der, value + 2, end) == Some(value + 2)
    ensures HasAt(der, value + 2, ENDLESS)
  {
    hide ScanStep, HasAt, EncodeLength, After, Next;
    EncodedEleven();
    HasAtSplit(der, value, [a.tag, 11], ENDLESS);
    assert ValueField(a) == [a.tag, 11] + ENDLESS;
    AtLocal([a.tag, 11], der, value, 0);
    AtLocal([a.tag, 11], der, value, 1);
    NotASet(der, value);
    NotASet(der, value + 1);
    EndlessStep(der, value + 2);
    NextIs(der, pos, end);
    NextIs(der, value, end);
    NextIs(der, value + 1, end);
    NextIs(der, value + 2, end);
    RoundsOn(der, start, end, n);
    RoundsOn(der, start, end, n + 1);
    RoundsOn(der, start, end, n + 2);
  }

  /** An attribute with this value: when the scan comes to it in step, it comes to the value's start, and every round
      from there leads to there, so that the loop never ends. */
  lemma EndlessLoop(c: Certificate, before: seq<Attribute>, a: Attribute, after: seq<Attribute>)
    returns (start: nat, p: nat, n: nat)
    requires Valid(c) && c.subject == before + [a] + after && InStep(Rdns(before), 0)
    requires !IsName(a) && a.tag != 0x31 && a.value == ENDLESS
    ensures CommonName(Encode(c)) == Endless
    ensures HasAt(Encode(c), start, Rdns(c.subject)) && HasAt(Encode(c), p, ENDLESS)
    ensures StaysAt(Encode(c), start, start + |Rdns(c.subject)|, n, p)
    ensures NeverEnds(Encode(c), start, start + |Rdns(c.subject)|)
  {
    hide CommonName, Encode, ScanStep, HasAt, InStep, Rdn, Scan, After, Next, ComesBack, NeverEnds, StaysAt;
    hide ValueField;
    var der := Encode(c);
    start := LoopEndsExactly(c);
    var end := start + |Rdns(c.subject)|;
    HasAtSplit(der, start, Rdns(c.subject), c.restOfTbs + c.trailer);
    assert c.subject == before + ([a] + after) && ([a] + after)[1..] == after;
    RdnsOfConcat(before, [a] + after);
    HasAtSplit(der, start, Rdns(before), Rdn(a) + Rdns(after));
    var pos := start + |Rdns(before)|;
    HasAtSplit(der, pos, Rdn(a), Rdns(after));
    n := CrossRounds(Rdns(before), 0, der, start, end);
    var ignored := ScanIsSubject(c);
    var value := RdnStep(der, pos, a);
    EndlessRounds(der, start, end, n, pos, value, a);
    p, n := value + 2, n + 3;
    StaysThere(der, start, end, n, p);
  }

  /** The loop is at p after n rounds and after any more. */
  ghost predicate StaysAt(der: seq<byte>, pos: int, end: int, n: nat, p: int) {
    forall i: nat :: i >= n ==> After(der, pos, end, i) == Some(p)
  }

  lemma StaysThere(der: seq<byte>, pos: int, end: int, n: nat, p: int)
    requires After(der, pos, end, n) == Some(p) && Next(der, p, end) == Some(p)
    ensures StaysAt(der, pos, end, n, p) && NeverEnds(der, pos, end)
  {
    hide After, Next;
    forall i: nat | i >= n ensures After(der, pos, end, i) == Some(p) { StillThere(der, pos, end, n, p, i); }
    forall i: nat ensures After(der, pos, end, i).Some? {
      if i < n { AfterFewer(der, pos, end, i, n); }
    }
  }

  lemma {:induction false} StillThere(der: seq<byte>, pos: int, end: int, n: nat, p: int, i: nat)
    requires After(der, pos, end, n) == Some(p) && Next(der, p, end) == Some(p) && n <= i
    ensures After(der, pos, end, i) == Some(p)
    decreases i
  {
    hide After, Next;
    if n < i {
      StillThere(der, pos, end, n, p, i - 1);
      RoundsOn(der, pos, end, i - 1);
    }
  }

  lemma EncodedEleven()
    ensures EncodeLength(11) == [11] && |ENDLESS| == 11
  {
  }

  /** An organizational unit with that value, and a common name the reader never comes to. */
  const ENDLESS_CERTIFICATE := Certificate(
    None, [1], [], [], SOME_DAY, SOME_DAY,
    [Attribute([0x55, 0x04, 0x0b], 0x0c, ENDLESS), Attribute(COMMON_NAME, 0x0c, [0x61])], [], [])

  /** The loop does not end on a valid certificate: from the subject's start there is always a next round. */
  lemma EndlessCertificate() returns (start: nat)
    ensures Valid(ENDLESS_CERTIFICATE) && CommonName(Encode(ENDLESS_CERTIFICATE)) == Endless
    ensures var der, subject := Encode(ENDLESS_CERTIFICATE), Rdns(ENDLESS_CERTIFICATE.subject);
      HasAt(der, start, subject) && NeverEnds(der, start, start + |subject|)
  {
    hide CommonName, Rdn, Rdns, ScanStep, Encode, After, HasAt, Scan;
    var c := ENDLESS_CERTIFICATE;
    SmallIsValid(c);
    assert Rdns([]) == [] by { NoRdns(); }
    assert c.subject == [] + [c.subject[0]] + [c.subject[1]];
    assert c.subject[0].oid[2] != COMMON_NAME[2];
    var p, m;
    start, p, m := EndlessLoop(c, [], c.subject[0], [c.subject[1]]);
  }

  lemma NoRdns()
    ensures Rdns([]) == []
  {
  }
}
