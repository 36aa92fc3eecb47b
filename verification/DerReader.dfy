/** The console's reader of DER certificates: hand-written offset walking over the bytes. */
module DerReader {
  import opened Text

  type byte = b: int | 0 <= b < 256

  /** A JavaScript number as far as the reader needs it; undefined counts as NaN. */
  datatype Num = NaN | Int(v: int)

  function Plus(a: Num, b: Num): Num {
    if a.Int? && b.Int? then Int(a.v + b.v) else NaN
  }

  /** Indexing: outside the bytes there is nothing. */
  function At(der: seq<byte>, i: Num): Num {
    if i.Int? && 0 <= i.v < |der| then Int(der[i.v]) else NaN
  }

  /** The 32-bit two's complement value that the shift operator works on. */
  function ToInt32(n: int): int {
    (n + 0x8000_0000) % 0x1_0000_0000 - 0x8000_0000
  }

  function ShiftLeft8(n: Num): Num {
    if n.NaN? then Int(0) else Int(ToInt32(ToInt32(n.v) * 256))
  }

  /** A slice bound: NaN counts as 0, a negative bound from the end, and both are clamped. */
  function SliceBound(der: seq<byte>, n: Num): (i: nat)
    ensures i <= |der|
  {
    if n.NaN? then 0
    else if n.v < 0 then (if |der| + n.v < 0 then 0 else |der| + n.v)
    else if n.v > |der| then |der| else n.v
  }

  function Slice(der: seq<byte>, from: Num, to: Num): seq<byte> {
    var i, j := SliceBound(der, from), SliceBound(der, to);
    if i < j then der[i..j] else []
  }

  // ----- Lengths

  datatype Length = Length(length: Num, offset: Num)

  /** The value of n big-endian bytes from pos, after the value len. */
  function Accumulate(der: seq<byte>, pos: int, n: nat, len: Num): Num
    decreases n
  {
    if n == 0 then len
    else Accumulate(der, pos + 1, n - 1, Plus(ShiftLeft8(len), At(der, Int(pos))))
  }

  function LengthAt(der: seq<byte>, pos: Num): Length {
    var first := At(der, pos);
    if first.NaN? then Length(NaN, Plus(pos, Int(1)))
    else if first.v < 0x80 then Length(first, Int(pos.v + 1))
    else
      var bytes := first.v % 0x80;
      Length(Accumulate(der, pos.v + 1, bytes, Int(0)), Int(pos.v + 1 + bytes))
  }

  method ReadLength(der: seq<byte>, start: Num) returns (r: Length)
    ensures r == LengthAt(der, start)
  {
    var pos := start;
    var len := At(der, pos);
    pos := Plus(pos, Int(1));
    if len.Int? && len.v >= 0x80 {
      var bytes := len.v % 0x80;
      len := Int(0);
      for i := 0 to bytes
        invariant pos == Int(start.v + 1 + i)
        invariant Accumulate(der, start.v + 1 + i, bytes - i, len) == Accumulate(der, start.v + 1, bytes, Int(0))
      {
        len := Plus(ShiftLeft8(len), At(der, pos));
        pos := Plus(pos, Int(1));
      }
    }
    r := Length(len, pos);
  }

  /** Past the tag and length at pos: the start of the contents. */
  function Enter(der: seq<byte>, pos: Num): Num {
    LengthAt(der, Plus(pos, Int(1))).offset
  }

  /** Past the whole field at pos. */
  function SkipField(der: seq<byte>, pos: Num): Num {
    var len := LengthAt(der, Plus(pos, Int(1)));
    Plus(len.offset, len.length)
  }

  function Contents(der: seq<byte>, pos: Num): seq<byte> {
    var len := LengthAt(der, Plus(pos, Int(1)));
    Slice(der, len.offset, Plus(len.offset, len.length))
  }

  // ----- The expiration date

  /** The offset of the first field after the optional version; None when the outer tags are wrong. */
  function AfterVersion(der: seq<byte>): Option<Num> {
    if At(der, Int(0)) != Int(0x30) then None
    else
      var tbs := Enter(der, Int(0));
      if At(der, tbs) != Int(0x30) then None
      else
        var field := Enter(der, tbs);
        Some(if At(der, field) == Int(0xa0) then SkipField(der, field) else field)
  }

  /** Past n fields whose tags are SEQUENCE or INTEGER. */
  function SkipChecked(der: seq<byte>, pos: Num, n: nat): Option<Num>
    decreases n
  {
    if n == 0 then Some(pos)
    else if At(der, pos) != Int(0x30) && At(der, pos) != Int(0x02) then None
    else SkipChecked(der, SkipField(der, pos), n - 1)
  }

  function NotAfterField(der: seq<byte>): Option<seq<byte>> {
    var first := AfterVersion(der);
    if first.None? then None
    else
      var validity := SkipChecked(der, first.value, 3);
      if validity.None? || At(der, validity.value) != Int(0x30) then None
      else Some(Contents(der, SkipField(der, Enter(der, validity.value))))
  }

  method ReadNotAfter(der: seq<byte>) returns (r: Option<seq<byte>>)
    ensures r == NotAfterField(der)
  {
    var offset := Int(0);
    if At(der, offset) != Int(0x30) { return None; }
    var len := ReadLength(der, Plus(offset, Int(1)));
    offset := len.offset;
    if At(der, offset) != Int(0x30) { return None; }
    len := ReadLength(der, Plus(offset, Int(1)));
    offset := len.offset;
    if At(der, offset) == Int(0xa0) {
      len := ReadLength(der, Plus(offset, Int(1)));
      offset := Plus(len.offset, len.length);
    }
    ghost var first := offset;
    for i := 0 to 3
      invariant AfterVersion(der) == Some(first)
      invariant SkipChecked(der, first, 3) == SkipChecked(der, offset, 3 - i)
    {
      if At(der, offset) != Int(0x30) && At(der, offset) != Int(0x02) { return None; }
      len := ReadLength(der, Plus(offset, Int(1)));
      offset := Plus(len.offset, len.length);
    }
    if At(der, offset) != Int(0x30) { return None; }
    len := ReadLength(der, Plus(offset, Int(1)));
    offset := len.offset;
    len := ReadLength(der, Plus(offset, Int(1)));
    offset := Plus(len.offset, len.length);
    len := ReadLength(der, Plus(offset, Int(1)));
    r := Some(Slice(der, len.offset, Plus(len.offset, len.length)));
  }

  predicate IsChecked(der: seq<byte>, pos: Num) {
    At(der, pos) == Int(0x30) || At(der, pos) == Int(0x02)
  }

  /** A date is read exactly when the two outer sequences, the three fields before the validity and the validity have
      the tags that are looked for; it is then the second field of the validity. */
  lemma DateFoundExactly(der: seq<byte>)
    ensures var tbs := Enter(der, Int(0));
      var field := Enter(der, tbs);
      var first := if At(der, field) == Int(0xa0) then SkipField(der, field) else field;
      var second := SkipField(der, first);
      var third := SkipField(der, second);
      var validity := SkipField(der, third);
      var found := At(der, Int(0)) == Int(0x30) && At(der, tbs) == Int(0x30) && At(der, validity) == Int(0x30)
        && IsChecked(der, first) && IsChecked(der, second) && IsChecked(der, third);
      NotAfterField(der) == if found then Some(Contents(der, SkipField(der, Enter(der, validity)))) else None
  {
    hide SkipField, Enter, Contents;
    if AfterVersion(der).Some? {
      var first := AfterVersion(der).value;
      CheckedStep(der, first, 3);
      CheckedStep(der, SkipField(der, first), 2);
      CheckedStep(der, SkipField(der, SkipField(der, first)), 1);
      CheckedNone(der, SkipField(der, SkipField(der, SkipField(der, first))));
    }
  }

  lemma CheckedStep(der: seq<byte>, pos: Num, n: nat)
    requires n > 0
    ensures SkipChecked(der, pos, n) ==
      if IsChecked(der, pos) then SkipChecked(der, SkipField(der, pos), n - 1) else None
  {
    hide SkipField;
  }

  lemma CheckedNone(der: seq<byte>, pos: Num)
    ensures SkipChecked(der, pos, 0) == Some(pos)
  {
  }
}
