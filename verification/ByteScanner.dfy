/** The byte scanner of `kernel/devicetree/src/scanner.rs`, and what `fdt/scanner.cc` does
  * differently.
  */
module ByteScanner {
  import opened Numeric
  import opened Wrappers

  type Byte = x: nat | x < 256
  type Word32 = x: nat | x < 0x1_0000_0000
  type Word64 = x: nat | x < 0x1_0000_0000_0000_0000

  datatype Error =
    | NotEnoughData | Unterminated | UnknownToken | UnmatchedEnd | UnfinishedNodes | NoRoot
    | BadMagic | TooNew | TooSmall | NotUtf8

  // ----- big-endian words

  function Be32(b: seq<Byte>): Word32
    requires |b| == 4
  {
    0x100_0000 * (b[0] as int) + 0x1_0000 * (b[1] as int) + 256 * (b[2] as int) + b[3] as int
  }

  function ToBe32(x: Word32): (b: seq<Byte>)
    ensures |b| == 4
  {
    [x / 0x100_0000, x / 0x1_0000 % 256, x / 256 % 256, x % 256]
  }

  function Be64(b: seq<Byte>): Word64
    requires |b| == 8
  {
    0x1_0000_0000 * (Be32(b[..4]) as int) + Be32(b[4..]) as int
  }

  function ToBe64(x: Word64): (b: seq<Byte>)
    ensures |b| == 8
  {
    ToBe32(x / 0x1_0000_0000) + ToBe32(x % 0x1_0000_0000)
  }

  lemma Be32RoundTrip(x: Word32, b: seq<Byte>)
    requires |b| == 4
    ensures Be32(ToBe32(x)) == x && ToBe32(Be32(b)) == b
  {
    FourDigits(x / 0x100_0000, x / 0x1_0000 % 256, x / 256 % 256, x % 256);
    Digits(x);
    FourDigits(b[0], b[1], b[2], b[3]);
    assert b == [b[0], b[1], b[2], b[3]];
  }

  /** The first byte is the most significant one. */
  lemma BigEndian(x: Byte)
    ensures Be32([x, 0, 0, 0]) == x * 0x100_0000 && Be32([0, x, 0, 0]) == x * 0x1_0000
    ensures Be32([0, 0, x, 0]) == x * 0x100 && Be32([0, 0, 0, x]) == x
    ensures Be64([x, 0, 0, 0, 0, 0, 0, 0]) == x * 0x100_0000_0000_0000
    ensures Be64([0, 0, 0, x, 0, 0, 0, 0]) == x * 0x1_0000_0000
    ensures Be64([0, 0, 0, 0, x, 0, 0, 0]) == x * 0x100_0000
    ensures Be64([0, 0, 0, 0, 0, 0, 0, x]) == x
  {
    var zeros: seq<Byte> := [0, 0, 0, 0];
    assert [x, 0, 0, 0, 0, 0, 0, 0][..4] == [x, 0, 0, 0] && [x, 0, 0, 0, 0, 0, 0, 0][4..] == zeros;
    assert [0, 0, 0, x, 0, 0, 0, 0][..4] == [0, 0, 0, x] && [0, 0, 0, x, 0, 0, 0, 0][4..] == zeros;
    assert [0, 0, 0, 0, x, 0, 0, 0][..4] == zeros && [0, 0, 0, 0, x, 0, 0, 0][4..] == [x, 0, 0, 0];
    assert [0, 0, 0, 0, 0, 0, 0, x][..4] == zeros && [0, 0, 0, 0, 0, 0, 0, x][4..] == [0, 0, 0, x];
  }

  lemma Digits(x: Word32)
    ensures x == 0x100_0000 * (x / 0x100_0000) + 0x1_0000 * (x / 0x1_0000 % 256) + 256 * (x / 256 % 256) + x % 256
  {
    var p, q := x / 256, x / 256 / 256;
    assert x / 0x1_0000 == q && x / 0x100_0000 == q / 256;
  }

  lemma FourDigits(a: Byte, b: Byte, c: Byte, d: Byte)
    ensures var x := 0x100_0000 * (a as int) + 0x1_0000 * (b as int) + 256 * (c as int) + d as int;
      && x < 0x1_0000_0000 && x / 0x100_0000 == a && x / 0x1_0000 % 256 == b && x / 256 % 256 == c && x % 256 == d
  {
    var x := 0x100_0000 * (a as int) + 0x1_0000 * (b as int) + 256 * (c as int) + d as int;
    assert x / 256 == 0x1_0000 * (a as int) + 256 * (b as int) + c as int;
    assert x / 0x1_0000 == 256 * (a as int) + b as int;
  }

  lemma Be64RoundTrip(x: Word64)
    ensures Be64(ToBe64(x)) == x
  {
    var b := ToBe64(x);
    assert b[..4] == ToBe32(x / 0x1_0000_0000) && b[4..] == ToBe32(x % 0x1_0000_0000);
    Be32RoundTrip(x / 0x1_0000_0000, b[..4]);
    Be32RoundTrip(x % 0x1_0000_0000, b[4..]);
  }

  // ----- strings and alignment

  type Scalar = c: nat | c < 0xd800 || 0xe000 <= c < 0x11_0000

  /** The UTF-8 encoding of a Unicode scalar value. */
  function Encode(c: Scalar): seq<Byte> {
    if c < 0x80 then [c]
    else if c < 0x800 then [0xc0 + c / 64, 0x80 + c % 64]
    else if c < 0x1_0000 then [0xe0 + c / 4096, 0x80 + c / 64 % 64, 0x80 + c % 64]
    else [0xf0 + c / 262144, 0x80 + c / 4096 % 64, 0x80 + c / 64 % 64, 0x80 + c % 64]
  }

  function EncodeAll(cs: seq<Scalar>): seq<Byte> {
    if cs == [] then [] else Encode(cs[0]) + EncodeAll(cs[1..])
  }

  predicate Trails(s: seq<Byte>, k: nat, low: Byte, high: Byte) {
    k < |s| && low <= s[k] <= high
  }

  /** The length of the well-formed sequence at the start, after table 3-7 of the Unicode
    * Standard, or 0. */
  function FirstLength(s: seq<Byte>): (n: nat)
    ensures n <= |s|
  {
    if s == [] then 0
    else
      var lead := s[0];
      if lead < 0x80 then 1
      else if 0xc2 <= lead < 0xe0 then (if Trails(s, 1, 0x80, 0xbf) then 2 else 0)
      else if 0xe0 <= lead < 0xf0 then
        var low := if lead == 0xe0 then 0xa0 else 0x80;
        var high := if lead == 0xed then 0x9f else 0xbf;
        if Trails(s, 1, low, high) && Trails(s, 2, 0x80, 0xbf) then 3 else 0
      else if 0xf0 <= lead < 0xf5 then
        var low := if lead == 0xf0 then 0x90 else 0x80;
        var high := if lead == 0xf4 then 0x8f else 0xbf;
        if Trails(s, 1, low, high) && Trails(s, 2, 0x80, 0xbf) && Trails(s, 3, 0x80, 0xbf) then 4 else 0
      else 0
  }

  predicate Utf8(s: seq<Byte>) {
    s == [] || (FirstLength(s) > 0 && Utf8(s[FirstLength(s)..]))
  }

  lemma Sextets(a: nat, b: nat, c: nat)
    requires b < 64 && c < 64
    ensures var x := 4096 * a + 64 * b + c;
      x / 4096 == a && x / 64 % 64 == b && x % 64 == c && x / 262144 == a / 64
  {
    assert (4096 * a + 64 * b + c) / 64 == 64 * a + b;
  }

  lemma ThreeBytes(a: int, b: int, d: int) returns (c: Scalar)
    requires 0xe0 <= a < 0xf0 && 0x80 <= b < 0xc0 && 0x80 <= d < 0xc0
    requires (a == 0xe0 ==> b >= 0xa0) && (a == 0xed ==> b < 0xa0)
    ensures Encode(c) == [a, b, d]
  {
    Sextets(a - 0xe0, b - 0x80, d - 0x80);
    c := 4096 * (a - 0xe0) + 64 * (b - 0x80) + (d - 0x80);
  }

  lemma FourBytes(a: int, b: int, d: int, e: int) returns (c: Scalar)
    requires 0xf0 <= a < 0xf5 && 0x80 <= b < 0xc0 && 0x80 <= d < 0xc0 && 0x80 <= e < 0xc0
    requires (a == 0xf0 ==> b >= 0x90) && (a == 0xf4 ==> b < 0x90)
    ensures Encode(c) == [a, b, d, e]
  {
    Sextets(64 * (a - 0xf0) + (b - 0x80), d - 0x80, e - 0x80);
    c := 262144 * (a - 0xf0) + 4096 * (b - 0x80) + 64 * (d - 0x80) + (e - 0x80);
  }

  /** The value that the well-formed sequence at the start encodes. */
  lemma FirstScalar(s: seq<Byte>) returns (c: Scalar)
    requires FirstLength(s) > 0
    ensures s[..FirstLength(s)] == Encode(c)
  {
    match FirstLength(s)
    case 1 => c := s[0];
    case 2 => c := 64 * (s[0] as int - 0xc0) + (s[1] as int - 0x80);
    case 3 => c := ThreeBytes(s[0], s[1], s[2]);
    case _ => c := FourBytes(s[0], s[1], s[2], s[3]);
  }

  lemma EncodedFirst(c: Scalar, rest: seq<Byte>)
    ensures FirstLength(Encode(c) + rest) == |Encode(c)| > 0
  {
    EncodedLength(Encode(c), c);
    SameFirst(Encode(c), rest);
  }

  lemma EncodedLength(s: seq<Byte>, c: Scalar)
    requires s == Encode(c)
    ensures FirstLength(s) == |s| > 0
  {
  }

  /** What follows a well-formed sequence does not matter. */
  lemma SameFirst(s: seq<Byte>, rest: seq<Byte>)
    requires FirstLength(s) == |s| > 0
    ensures FirstLength(s + rest) == |s|
  {
    assert forall k :: 0 <= k < |s| ==> (s + rest)[k] == s[k];
  }

  lemma {:induction false} AsciiIsUtf8(s: seq<Byte>)
    requires forall k :: 0 <= k < |s| ==> s[k] < 0x80
    ensures Utf8(s)
  {
    if s != [] {
      AsciiIsUtf8(s[1..]);
    }
  }

  lemma {:induction false} Utf8Encodes(s: seq<Byte>) returns (cs: seq<Scalar>)
    requires Utf8(s)
    ensures EncodeAll(cs) == s
    decreases |s|
  {
    hide Encode, FirstLength;
    if s == [] {
      return [];
    }
    var n := FirstLength(s);
    var c := FirstScalar(s);
    var rest := Utf8Encodes(s[n..]);
    assert s == s[..n] + s[n..] && ([c] + rest)[1..] == rest;
    return [c] + rest;
  }

  lemma {:induction false} EncodedIsUtf8(cs: seq<Scalar>)
    ensures Utf8(EncodeAll(cs))
  {
    hide Encode, FirstLength;
    if cs != [] {
      var first, rest := Encode(cs[0]), EncodeAll(cs[1..]);
      EncodedFirst(cs[0], rest);
      assert (first + rest)[|first|..] == rest;
      EncodedIsUtf8(cs[1..]);
    }
  }

  /** The accepted bytes are exactly the encodings of sequences of scalar values. */
  lemma Utf8Exact(s: seq<Byte>)
    ensures Utf8(s) <==> exists cs :: EncodeAll(cs) == s
  {
    if Utf8(s) {
      var cs := Utf8Encodes(s);
    }
    if cs :| EncodeAll(cs) == s {
      EncodedIsUtf8(cs);
    }
  }

  /** The first zero byte at or after `from`, or the end. */
  function FirstZero(data: seq<Byte>, from: nat): (i: nat)
    requires from <= |data|
    ensures from <= i <= |data| && (i < |data| ==> data[i] == 0)
    ensures forall j :: from <= j < i ==> data[j] != 0
    decreases |data| - from
  {
    if from == |data| || data[from] == 0 then from else FirstZero(data, from + 1)
  }

  /** The least multiple of the alignment that is not below `x`. */
  function NextMultiple(x: nat, alignment: nat): (r: nat)
    ensures alignment > 0 ==> r % alignment == 0 && x <= r < x + alignment
  {
    if alignment == 0 || x % alignment == 0 then x
    else
      StepToMultiple(x, alignment);
      x + (alignment - x % alignment)
  }

  lemma StepToMultiple(x: nat, alignment: nat)
    requires alignment > 0
    ensures 0 <= x % alignment < alignment && (x + (alignment - x % alignment)) % alignment == 0
  {
    Division(x, alignment);
    var q := x / alignment;
    assert (q + 1) * alignment == q * alignment + alignment;
    MultipleOf(q + 1, alignment);
  }

  class Scanner {
    const data: seq<Byte>
    var offset: nat

    constructor (data: seq<Byte>)
      ensures this.data == data && offset == 0 && Valid()
    {
      this.data := data;
      offset := 0;
    }

    /** A copy of a scanner moves on its own. */
    constructor Copy(other: Scanner)
      requires other.Valid()
      ensures data == other.data && offset == other.offset && Valid()
    {
      data := other.data;
      offset := other.offset;
    }

    ghost predicate Valid()
      reads this
    {
      offset <= |data|
    }

    method ConsumeBe32() returns (r: Result<Word32, Error>)
      requires Valid()
      modifies this
      ensures Valid()
      ensures old(offset) + 4 <= |data| ==>
        offset == old(offset) + 4 && r == Ok(Be32(data[old(offset)..old(offset) + 4]))
      ensures old(offset) + 4 > |data| ==> offset == old(offset) && r == Err(NotEnoughData)
    {
      if offset + 4 > |data| {
        return Err(NotEnoughData);
      }
      var value := data[offset..offset + 4];
      offset := offset + |value|;
      return Ok(Be32(value));
    }

    method ConsumeBe64() returns (r: Result<Word64, Error>)
      requires Valid()
      modifies this
      ensures Valid()
      ensures old(offset) + 8 <= |data| ==>
        offset == old(offset) + 8 && r == Ok(Be64(data[old(offset)..old(offset) + 8]))
      ensures old(offset) + 8 > |data| ==> offset == old(offset) && r == Err(NotEnoughData)
    {
      if offset + 8 > |data| {
        return Err(NotEnoughData);
      }
      var value := data[offset..offset + 8];
      offset := offset + |value|;
      return Ok(Be64(value));
    }

    method ConsumeCstr() returns (r: Result<seq<Byte>, Error>)
      requires Valid()
      modifies this
      ensures Valid()
      ensures var i := FirstZero(data, old(offset));
        if i == |data| then offset == old(offset) && r == Err(Unterminated)
        else if !Utf8(data[old(offset)..i]) then offset == old(offset) && r == Err(NotUtf8)
        else offset == i + 1 && r == Ok(data[old(offset)..i])
    {
      var i := offset;
      while true
        invariant offset == old(offset) <= i <= |data|
        invariant FirstZero(data, i) == FirstZero(data, offset)
        decreases |data| - i
      {
        if i >= |data| {
          return Err(Unterminated);
        }
        if data[i] != 0 {
          i := i + 1;
          continue;
        }
        var s := data[offset..i];
        if Utf8(s) {
          offset := i + 1;
          return Ok(s);
        }
        return Err(NotUtf8);
      }
    }

    /** `ConsumeCstr` of `fdt/scanner.cc`: any bytes up to the first zero. */
    method ConsumeAnyCstr() returns (r: Option<seq<Byte>>)
      requires Valid()
      modifies this
      ensures Valid()
      ensures var i := FirstZero(data, old(offset));
        if i < |data| then offset == i + 1 && r == Some(data[old(offset)..i])
        else offset == old(offset) && r == None
    {
      var size := 0;
      while offset + size < |data|
        invariant offset == old(offset) && offset + size <= |data|
        invariant FirstZero(data, offset + size) == FirstZero(data, offset)
      {
        if data[offset + size] == 0 {
          r := Some(data[offset..offset + size]);
          offset := offset + size + 1;
          return;
        }
        size := size + 1;
      }
      return None;
    }

    method ConsumeData(size: nat) returns (r: Result<seq<Byte>, Error>)
      requires Valid()
      modifies this
      ensures Valid()
      ensures old(offset) + size <= |data| ==>
        offset == old(offset) + size && r == Ok(data[old(offset)..old(offset) + size])
      ensures old(offset) + size > |data| ==> offset == old(offset) && r == Err(NotEnoughData)
    {
      if offset + size > |data| {
        return Err(NotEnoughData);
      }
      var begin := offset;
      var end := begin + size;
      offset := offset + size;
      return Ok(data[begin..end]);
    }

    /** Does not move onto the very end of the data. */
    method AlignForward(alignment: nat) returns (r: Outcome<Error>)
      requires Valid()
      modifies this
      ensures Valid()
      ensures var to := NextMultiple(old(offset), alignment);
        if to == old(offset) || to < |data| then offset == to && r == Pass
        else offset == old(offset) && r == Fail(NotEnoughData)
    {
      if alignment == 0 || offset % alignment == 0 {
        return Pass;
      }
      var shift := alignment - offset % alignment;
      if offset + shift >= |data| {
        return Fail(NotEnoughData);
      }
      offset := offset + shift;
      return Pass;
    }

    /** `AlignForward` of `fdt/scanner.cc`: may move onto the end of the data. */
    method AlignForwardToEnd(alignment: nat) returns (ok: bool)
      requires Valid()
      modifies this
      ensures Valid()
      ensures ok <==> NextMultiple(old(offset), alignment) <= |data|
      ensures offset == if ok then NextMultiple(old(offset), alignment) else old(offset)
    {
      if alignment == 0 || offset % alignment == 0 {
        return true;
      }
      var shift := alignment - offset % alignment;
      if offset + shift > |data| {
        return false;
      }
      offset := offset + shift;
      return true;
    }
  }
}
