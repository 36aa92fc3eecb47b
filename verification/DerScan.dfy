/** The loop over the subject of a certificate, which looks for the common name and may never end. */
module DerScan {
  import opened Text
  import opened DerReader

  // ----- The common name

  const COMMON_NAME: seq<byte> := [0x55, 0x04, 0x03]

  /** One round of the subject loop: on to another offset, or the name. */
  datatype Visit = Go(to: Num) | Found(name: seq<byte>)

  function ScanStep(der: seq<byte>, pos: int): Visit {
    if At(der, Int(pos)) != Int(0x31) then Go(Int(pos + 1))
    else
      var inSet := Enter(der, Int(pos));
      if At(der, inSet) != Int(0x30) then Go(Plus(inSet, Int(1)))
      else
        var inSequence := Enter(der, inSet);
        if At(der, inSequence) != Int(0x06) then Go(Plus(inSequence, Int(1)))
        else
          var after := SkipField(der, inSequence);
          if Contents(der, inSequence) == COMMON_NAME then Found(Contents(der, after)) else Go(after)
  }

  /** Endless: the loop never ends. */
  datatype Outcome = Name(bytes: seq<byte>) | Null | Endless

  /** The offset after one round of the loop; None when the loop ends at pos. */
  function Next(der: seq<byte>, pos: int, end: int): Option<int> {
    if pos >= end then None
    else
      match ScanStep(der, pos)
      case Go(Int(next)) => Some(next)
      case _ => None
  }

  /** What is returned when the loop ends at pos. */
  function Ending(der: seq<byte>, pos: int, end: int): Outcome {
    if pos < end && ScanStep(der, pos).Found? then Name(ScanStep(der, pos).name) else Null
  }

  /** The offset after n rounds, whichever way they move; None when the loop has ended before. */
  function After(der: seq<byte>, pos: int, end: int, n: nat): Option<int>
    decreases n
  {
    if n == 0 then Some(pos)
    else
      var next := Next(der, pos, end);
      if next.None? then None else After(der, next.value, end, n - 1)
  }

  /** The loop ends at the offset it has after n rounds. */
  predicate EndsAfter(der: seq<byte>, pos: int, end: int, n: nat) {
    After(der, pos, end, n).Some? && Next(der, After(der, pos, end, n).value, end).None?
  }

  /** What the loop returns from pos, if it ends. */
  ghost function Scan(der: seq<byte>, pos: int, end: int): Outcome {
    if n: nat :| EndsAfter(der, pos, end, n) then Ending(der, After(der, pos, end, n).value, end) else Endless
  }

  function SubjectOffset(der: seq<byte>): Option<Num> {
    var first := AfterVersion(der);
    if first.None? then None
    else Some(SkipField(der, SkipField(der, SkipField(der, SkipField(der, first.value)))))
  }

  ghost function CommonName(der: seq<byte>): Outcome {
    var subject := SubjectOffset(der);
    if subject.None? || At(der, subject.value) != Int(0x30) then Null
    else
      var start, end := Enter(der, subject.value), SkipField(der, subject.value);
      if start.NaN? || end.NaN? then Null else Scan(der, start.v, end.v)
  }

  method Skip(der: seq<byte>, pos: Num) returns (r: Num)
    ensures r == SkipField(der, pos)
  {
    var len := ReadLength(der, Plus(pos, Int(1)));
    r := Plus(len.offset, len.length);
  }

  /** The body of the subject loop at the offset pos. */
  method VisitField(der: seq<byte>, pos: int) returns (r: Visit)
    ensures r == ScanStep(der, pos)
  {
    hide LengthAt, Slice;
    var offset := Int(pos + 1);
    if At(der, Int(pos)) != Int(0x31) { return Go(offset); }
    var len := ReadLength(der, offset);
    var tag := At(der, len.offset);
    offset := Plus(len.offset, Int(1));
    if tag != Int(0x30) { return Go(offset); }
    len := ReadLength(der, offset);
    tag := At(der, len.offset);
    offset := Plus(len.offset, Int(1));
    if tag != Int(0x06) { return Go(offset); }
    len := ReadLength(der, offset);
    var oid := Slice(der, len.offset, Plus(len.offset, len.length));
    offset := Plus(len.offset, len.length);
    if |oid| == 3 && oid[0] == 0x55 && oid[1] == 0x04 && oid[2] == 0x03 {
      assert oid == COMMON_NAME;
      len := ReadLength(der, Plus(offset, Int(1)));
      r := Found(Slice(der, len.offset, Plus(len.offset, len.length)));
    } else {
      r := Go(offset);
    }
  }

  /** After every number of rounds there is a next offset. */
  ghost predicate NeverEnds(der: seq<byte>, pos: int, end: int) {
    forall n: nat :: After(der, pos, end, n).Some?
  }

  // ----- How the loop runs on

  lemma {:induction false} AfterMore(der: seq<byte>, pos: int, end: int, m: nat, n: nat)
    requires After(der, pos, end, m).Some?
    ensures After(der, pos, end, m + n) == After(der, After(der, pos, end, m).value, end, n)
    decreases m
  {
    hide Next;
    if m > 0 { AfterMore(der, Next(der, pos, end).value, end, m - 1, n); }
  }

  lemma {:induction false} AfterFewer(der: seq<byte>, pos: int, end: int, m: nat, n: nat)
    requires m <= n && After(der, pos, end, n).Some?
    ensures After(der, pos, end, m).Some?
    decreases m
  {
    hide Next;
    if m > 0 { AfterFewer(der, Next(der, pos, end).value, end, m - 1, n - 1); }
  }

  lemma EndsOnce(der: seq<byte>, pos: int, end: int, m: nat, n: nat)
    requires EndsAfter(der, pos, end, m) && EndsAfter(der, pos, end, n)
    ensures m == n
  {
    hide Next, After;
    if m != n {
      var a, b := if m < n then m else n, if m < n then n else m;
      AfterMore(der, pos, end, a, b - a);
      AfterNone(der, After(der, pos, end, a).value, end, b - a);
    }
  }

  lemma AfterNone(der: seq<byte>, pos: int, end: int, n: nat)
    requires n > 0 && Next(der, pos, end).None?
    ensures After(der, pos, end, n).None?
  {
    hide Next;
  }

  lemma AfterFirst(der: seq<byte>, pos: int, end: int, n: nat)
    requires Next(der, pos, end).Some?
    ensures EndsAfter(der, pos, end, n + 1) <==> EndsAfter(der, Next(der, pos, end).value, end, n)
    ensures After(der, pos, end, n + 1) == After(der, Next(der, pos, end).value, end, n)
  {
    hide Next;
  }

  /** The loop goes on as from its next offset. */
  lemma ScanOnce(der: seq<byte>, pos: int, end: int)
    ensures Next(der, pos, end).None? ==> Scan(der, pos, end) == Ending(der, pos, end)
    ensures Next(der, pos, end).Some? ==> Scan(der, pos, end) == Scan(der, Next(der, pos, end).value, end)
  {
    hide Next, Ending, EndsAfter, After, Scan;
    if Next(der, pos, end).None? {
      EndsHere(der, pos, end);
      ZeroRounds(der, pos, end);
      ScanIs(der, pos, end, 0);
    } else {
      NextScan(der, pos, end);
    }
  }

  lemma EndsHere(der: seq<byte>, pos: int, end: int)
    requires Next(der, pos, end).None?
    ensures EndsAfter(der, pos, end, 0)
  {
    hide Next;
  }

  lemma NextScan(der: seq<byte>, pos: int, end: int)
    requires Next(der, pos, end).Some?
    ensures Scan(der, pos, end) == Scan(der, Next(der, pos, end).value, end)
  {
    hide Next, Ending, EndsAfter, After;
    var next := Next(der, pos, end).value;
    if n: nat :| EndsAfter(der, pos, end, n) {
      if n == 0 { NotHere(der, pos, end); }
      AfterFirst(der, pos, end, n - 1);
      ScanIs(der, pos, end, n);
      ScanIs(der, next, end, n - 1);
    } else if m: nat :| EndsAfter(der, next, end, m) {
      AfterFirst(der, pos, end, m);
    }
  }

  lemma NotHere(der: seq<byte>, pos: int, end: int)
    requires Next(der, pos, end).Some?
    ensures !EndsAfter(der, pos, end, 0)
  {
    hide Next;
  }

  lemma ScanIs(der: seq<byte>, pos: int, end: int, n: nat)
    requires EndsAfter(der, pos, end, n)
    ensures Scan(der, pos, end) == Ending(der, After(der, pos, end, n).value, end)
  {
    hide Next, Ending, After;
    var k: nat :| EndsAfter(der, pos, end, k)
      && Scan(der, pos, end) == Ending(der, After(der, pos, end, k).value, end);
    EndsOnce(der, pos, end, k, n);
  }

  /** Endless is the answer exactly when the loop never ends. */
  lemma EndlessGoesOn(der: seq<byte>, pos: int, end: int)
    ensures Scan(der, pos, end) == Endless <==> NeverEnds(der, pos, end)
  {
    hide Next, After, Ending;
    if Scan(der, pos, end) == Endless {
      NoEnding(der, pos, end);
      forall n: nat ensures After(der, pos, end, n).Some? { GoesOn(der, pos, end, n); }
    } else {
      var n: nat :| EndsAfter(der, pos, end, n);
      AfterMore(der, pos, end, n, 1);
      AfterNone(der, After(der, pos, end, n).value, end, 1);
      assert After(der, pos, end, n + 1).None?;
    }
  }

  lemma NoEnding(der: seq<byte>, pos: int, end: int)
    requires Scan(der, pos, end) == Endless
    ensures forall n: nat :: !EndsAfter(der, pos, end, n)
  {
    hide EndsAfter, After;
    forall n: nat ensures !EndsAfter(der, pos, end, n) {
      if EndsAfter(der, pos, end, n) { ScanIs(der, pos, end, n); }
    }
  }

  lemma {:induction false} GoesOn(der: seq<byte>, pos: int, end: int, n: nat)
    requires forall m: nat :: !EndsAfter(der, pos, end, m)
    ensures After(der, pos, end, n).Some?
  {
    hide Next, After;
    if n > 0 {
      GoesOn(der, pos, end, n - 1);
      assert !EndsAfter(der, pos, end, n - 1);
      AfterMore(der, pos, end, n - 1, 1);
      OneMore(der, After(der, pos, end, n - 1).value, end);
    } else {
      assert After(der, pos, end, 0).Some? by { ZeroRounds(der, pos, end); }
    }
  }

  lemma OneMore(der: seq<byte>, pos: int, end: int)
    ensures After(der, pos, end, 1) == Next(der, pos, end)
  {
    hide Next;
  }

  lemma ZeroRounds(der: seq<byte>, pos: int, end: int)
    ensures After(der, pos, end, 0) == Some(pos)
  {
  }

  /** An offset that comes back after k rounds comes back for ever. */
  lemma {:induction false} CycleGoesOn(der: seq<byte>, pos: int, end: int, k: nat, n: nat)
    requires k > 0 && After(der, pos, end, k) == Some(pos)
    ensures After(der, pos, end, n).Some?
    decreases n
  {
    hide Next, After;
    if n < k {
      AfterFewer(der, pos, end, n, k);
    } else {
      AfterMore(der, pos, end, k, n - k);
      CycleGoesOn(der, pos, end, k, n - k);
    }
  }

  /** A loop that comes to one offset twice is endless. */
  lemma TwiceIsEndless(der: seq<byte>, pos: int, end: int, m: nat, n: nat)
    requires m < n && After(der, pos, end, m).Some? && After(der, pos, end, m) == After(der, pos, end, n)
    ensures Scan(der, pos, end) == Endless
  {
    hide Next, After, Scan;
    var q := After(der, pos, end, m).value;
    AfterMore(der, pos, end, m, n - m);
    forall i: nat ensures After(der, pos, end, i).Some? {
      CycleGoesOn(der, q, end, n - m, i);
      AfterMore(der, pos, end, m, i);
      AfterFewer(der, pos, end, i, m + i);
    }
    EndlessGoesOn(der, pos, end);
  }

  // ----- Where the loop can be

  const LOWEST := -0x8000_0000

  lemma {:induction false} AccumulateBounded(der: seq<byte>, pos: int, n: nat, len: Num)
    requires len.Int? ==> len.v >= LOWEST
    ensures var r := Accumulate(der, pos, n, len); r.Int? ==> r.v >= LOWEST
    decreases n
  {
    if n > 0 {
      assert ShiftLeft8(len).v >= LOWEST;
      AccumulateBounded(der, pos + 1, n - 1, Plus(ShiftLeft8(len), At(der, Int(pos))));
    }
  }

  lemma LengthBounded(der: seq<byte>, pos: int)
    ensures LengthAt(der, Int(pos)).offset.Int? && LengthAt(der, Int(pos)).offset.v > pos
    ensures LengthAt(der, Int(pos)).length.Int? ==> LengthAt(der, Int(pos)).length.v >= LOWEST
  {
    hide Accumulate;
    var first := At(der, Int(pos));
    if first.Int? && first.v >= 0x80 { AccumulateBounded(der, pos + 1, first.v % 0x80, Int(0)); }
  }

  /** One round leads forward, or back by less than 2^31. */
  lemma NextBounded(der: seq<byte>, pos: int, end: int)
    ensures Next(der, pos, end).Some? && pos >= LOWEST ==> Next(der, pos, end).value >= LOWEST
  {
    hide LengthAt, Contents;
    if At(der, Int(pos)) == Int(0x31) {
      LengthBounded(der, pos + 1);
      var inSet := Enter(der, Int(pos)).v;
      LengthBounded(der, inSet + 1);
      LengthBounded(der, Enter(der, Int(inSet)).v + 1);
    }
  }

  lemma SubjectStart(der: seq<byte>, pos: Num)
    requires At(der, pos) == Int(0x30)
    ensures Enter(der, pos).Int? && Enter(der, pos).v >= 0
  {
    hide LengthAt;
    LengthBounded(der, pos.v + 1);
  }

  /** Distinct numbers of an interval are no more than its length. */
  lemma {:induction false} SetInInterval(s: set<int>, lo: int, hi: int)
    requires lo <= hi && forall x :: x in s ==> lo <= x < hi
    ensures |s| <= hi - lo
    decreases hi - lo
  {
    if lo == hi {
      assert s == {};
    } else {
      SetInInterval(s - {hi - 1}, lo, hi - 1);
      assert hi - 1 in s ==> s == (s - {hi - 1}) + {hi - 1};
      assert hi - 1 !in s ==> s - {hi - 1} == s;
    }
  }

  /** The loop of the source, with a record of the offsets it has been at: it returns what the source returns, and
      Endless, on coming to an offset again, where the source goes on for ever. */
  method ScanSubjectFields(der: seq<byte>, start: int, end: int) returns (r: Outcome)
    requires start >= LOWEST
    ensures r == Scan(der, start, end)
  {
    hide ScanStep, Scan, After, Ending, Next;
    var offset := start;
    var visited: set<int> := {};
    ghost var n := 0;
    ZeroRounds(der, start, end);
    while offset < end
      invariant offset >= LOWEST && After(der, start, end, n) == Some(offset)
      invariant Scan(der, offset, end) == Scan(der, start, end)
      invariant forall q :: q in visited ==>
        LOWEST <= q < end && exists m: nat :: m < n && After(der, start, end, m) == Some(q)
      decreases end - LOWEST - |visited|
    {
      SetInInterval(visited, LOWEST, end);
      if offset in visited {
        ghost var m: nat :| m < n && After(der, start, end, m) == Some(offset);
        TwiceIsEndless(der, start, end, m, n);
        return Endless;
      }
      var visit := VisitField(der, offset);
      ScanOnce(der, offset, end);
      NextIs(der, offset, end);
      if visit.Found? { return Name(visit.name); }
      if visit.to.NaN? { return Null; }
      NextBounded(der, offset, end);
      AfterMore(der, start, end, n, 1);
      OneMore(der, offset, end);
      SetInInterval(visited + {offset}, LOWEST, end);
      visited := visited + {offset};
      n := n + 1;
      offset := visit.to.v;
    }
    ScanOnce(der, offset, end);
    NextIs(der, offset, end);
    r := Null;
  }

  lemma NextIs(der: seq<byte>, pos: int, end: int)
    ensures pos >= end ==> Next(der, pos, end) == None && Ending(der, pos, end) == Null
    ensures pos < end ==> var visit := ScanStep(der, pos);
      && (visit.Found? ==> Next(der, pos, end) == None && Ending(der, pos, end) == Name(visit.name))
      && (visit.Go? && visit.to.NaN? ==> Next(der, pos, end) == None && Ending(der, pos, end) == Null)
      && (visit.Go? && visit.to.Int? ==> Next(der, pos, end) == Some(visit.to.v))
  {
    hide ScanStep;
  }

  method ExtractCommonName(der: seq<byte>) returns (r: Outcome)
    ensures r == CommonName(der)
  {
    hide LengthAt, ScanStep, At, Scan;
    if At(der, Int(0)) != Int(0x30) { return Null; }
    var len := ReadLength(der, Int(1));
    var offset := len.offset;
    if At(der, offset) != Int(0x30) { return Null; }
    len := ReadLength(der, Plus(offset, Int(1)));
    offset := len.offset;
    if At(der, offset) == Int(0xa0) {
      offset := Skip(der, offset);
    }
    offset := Skip(der, offset);
    offset := Skip(der, offset);
    offset := Skip(der, offset);
    offset := Skip(der, offset);
    if At(der, offset) != Int(0x30) { return Null; }
    len := ReadLength(der, Plus(offset, Int(1)));
    var subjectEnd := Plus(len.offset, len.length);
    offset := len.offset;
    if offset.NaN? || subjectEnd.NaN? { return Null; }
    SubjectStart(der, SubjectOffset(der).value);
    r := ScanSubjectFields(der, offset.v, subjectEnd.v);
  }

  /** A name is looked for only in a sequence behind the two outer ones, and nothing is returned otherwise. */
  lemma NameNeedsTags(der: seq<byte>)
    requires CommonName(der) != Null
    ensures At(der, Int(0)) == Int(0x30) && At(der, Enter(der, Int(0))) == Int(0x30)
    ensures SubjectOffset(der).Some? && At(der, SubjectOffset(der).value) == Int(0x30)
  {
    hide SkipField, Enter, Scan;
  }
}
