/** Integers, strings and BSON documents as the Mongo server reads and writes them
    (unpack, get_utf8_string, decode_documents). */
module WireFormat {
  import opened Options

  type Byte = x: int | 0 <= x < 256 witness 0
  type Bytes = seq<Byte>

  const INT_LIMIT := 0x8000_0000
  const UINT_LIMIT := 0x1_0000_0000

  // ---- little-endian integers ----

  function PackUint(v: int): (b: Bytes)
    requires 0 <= v < UINT_LIMIT
    ensures |b| == 4
  {
    [v % 256, v / 256 % 256, v / 65536 % 256, v / 16777216]
  }

  function PackInt(v: int): (b: Bytes)
    requires -INT_LIMIT <= v < INT_LIMIT
    ensures |b| == 4
  {
    PackUint(if v < 0 then v + UINT_LIMIT else v)
  }

  function UintOf(b: Bytes): (v: int)
    requires |b| == 4
    ensures 0 <= v < UINT_LIMIT
  {
    (b[0] as int) + 256 * (b[1] as int) + 65536 * (b[2] as int) + 16777216 * (b[3] as int)
  }

  function IntOf(b: Bytes): (v: int)
    requires |b| == 4
    ensures -INT_LIMIT <= v < INT_LIMIT
  {
    var u := UintOf(b);
    if u < INT_LIMIT then u else u - UINT_LIMIT
  }

  lemma UintRoundTrip(v: int)
    requires 0 <= v < UINT_LIMIT
    ensures UintOf(PackUint(v)) == v
  {
    assert v / 65536 == v / 256 / 256;
    assert v / 16777216 == v / 256 / 256 / 256;
  }

  lemma IntRoundTrip(v: int)
    requires -INT_LIMIT <= v < INT_LIMIT
    ensures IntOf(PackInt(v)) == v
  {
    UintRoundTrip(if v < 0 then v + UINT_LIMIT else v);
  }

  /** What each byte is worth, the first one least; the upper half of the range is negative. */
  lemma ByteOrder(b: Bytes, i: nat)
    requires |b| == 4 && i < 4 && b[i] < 255
    ensures UintOf([0, 0, 0, 0]) == 0
    ensures UintOf(b[i := b[i] + 1]) == UintOf(b) + match i case 0 => 1 case 1 => 256 case 2 => 65536 case _ => 16777216
    ensures IntOf([255, 255, 255, 127]) == 2147483647 && IntOf([0, 0, 0, 128]) == -2147483648
    ensures IntOf([255, 255, 255, 255]) == -1 && IntOf([16, 0, 0, 0]) == 16
    ensures IntOf(b) == UintOf(b) || IntOf(b) == UintOf(b) - 4294967296
  {
  }

  /** A value and the position after it; too short a buffer is an error. */
  function UnpackUint(buffer: Bytes, start: nat): Result<(int, nat)> {
    if start + 4 > |buffer| then Err("buffer too short") else Ok((UintOf(buffer[start..start + 4]), start + 4))
  }

  function UnpackInt(buffer: Bytes, start: nat): Result<(int, nat)> {
    if start + 4 > |buffer| then Err("buffer too short") else Ok((IntOf(buffer[start..start + 4]), start + 4))
  }

  /** buffer[start : start + n], which stops at the end of the buffer. */
  function Slice(buffer: Bytes, start: nat, n: nat): Bytes {
    if start >= |buffer| then []
    else if start + n <= |buffer| then buffer[start..start + n]
    else buffer[start..]
  }

  // ---- zero-terminated UTF-8 strings ----

  function FindZero(buffer: Bytes, start: nat): (r: Option<nat>)
    ensures r.Some? ==> start <= r.value < |buffer|
    decreases |buffer| - start
  {
    if start >= |buffer| then None
    else if buffer[start] == 0 then Some(start)
    else FindZero(buffer, start + 1)
  }

  predicate Continuation(b: Byte) { 0x80 <= b < 0xC0 }

  /** The length of the UTF-8 character that starts `b`; none if no valid one does. */
  function CharLength(b: Bytes): (r: Option<nat>)
    requires b != []
    ensures r.Some? ==> 1 <= r.value <= |b|
    ensures b[0] < 0x80 <==> r == Some(1)
  {
    var c := b[0];
    if c < 0x80 then Some(1)
    else if 0xC2 <= c < 0xE0 && |b| >= 2 && Continuation(b[1]) then Some(2)
    else if 0xE0 <= c < 0xF0 && |b| >= 3 && Continuation(b[1]) && Continuation(b[2]) &&
            (c == 0xE0 ==> b[1] >= 0xA0) && (c == 0xED ==> b[1] < 0xA0) then Some(3)
    else if 0xF0 <= c < 0xF5 && |b| >= 4 && Continuation(b[1]) && Continuation(b[2]) && Continuation(b[3]) &&
            (c == 0xF0 ==> b[1] >= 0x90) && (c == 0xF4 ==> b[1] < 0x90) then Some(4)
    else None
  }

  /** The number of characters in a UTF-8 string; none if it is not valid. */
  function CharCount(b: Bytes): (r: Option<nat>)
    decreases |b|
  {
    if b == [] then Some(0)
    else
      var n := CharLength(b);
      if n.None? then None
      else
        var rest := CharCount(b[n.value..]);
        if rest.None? then None else Some(rest.value + 1)
  }

  predicate Ascii(b: Bytes) {
    forall i :: 0 <= i < |b| ==> b[i] < 0x80
  }

  /** A string has as many characters as bytes exactly when it is ASCII, and fewer otherwise. */
  lemma {:induction false} CharCountIsByteCountIff(b: Bytes)
    ensures CharCount(b).Some? ==> CharCount(b).value <= |b|
    ensures CharCount(b) == Some(|b|) <==> Ascii(b)
    decreases |b|
  {
    if b != [] && CharLength(b).Some? {
      var rest := b[CharLength(b).value..];
      CharCountIsByteCountIff(rest);
      if b[0] < 0x80 {
        assert b == [b[0]] + rest;
      }
    }
  }

  /** A Unicode scalar value, and its bytes in UTF-8 (section 3 of RFC 3629). */
  type Scalar = c: int | 0 <= c < 0xD800 || 0xE000 <= c < 0x110000 witness 0

  function Utf8(c: Scalar): Bytes {
    if c < 0x80 then [c]
    else if c < 0x800 then [0xC0 + c / 64, 0x80 + c % 64]
    else if c < 0x10000 then [0xE0 + c / 4096, 0x80 + c / 64 % 64, 0x80 + c % 64]
    else [0xF0 + c / 262144, 0x80 + c / 4096 % 64, 0x80 + c / 64 % 64, 0x80 + c % 64]
  }

  function Utf8String(cs: seq<Scalar>): Bytes {
    if cs == [] then [] else Utf8(cs[0]) + Utf8String(cs[1..])
  }

  lemma CharLengthOfScalar(c: Scalar, rest: Bytes)
    ensures Utf8(c) != [] && CharLength(Utf8(c) + rest) == Some(|Utf8(c)|)
  {
    var u, b := Utf8(c), Utf8(c) + rest;
    assert forall i :: 0 <= i < |u| ==> b[i] == u[i];
    SecondByte(c);
    hide Utf8;
  }

  lemma SecondByte(c: Scalar)
    ensures 0x800 <= c < 0x1000 ==> Utf8(c)[0] == 0xE0 && Utf8(c)[1] >= 0xA0
    ensures 0x1000 <= c < 0x10000 ==> 0xE1 <= Utf8(c)[0] < 0xF0 && (Utf8(c)[0] == 0xED ==> Utf8(c)[1] < 0xA0)
    ensures 0x10000 <= c ==> 0xF0 <= Utf8(c)[0] < 0xF5
    ensures 0x10000 <= c < 0x40000 ==> Utf8(c)[0] == 0xF0 && Utf8(c)[1] >= 0x90
    ensures 0x10000 <= c && Utf8(c)[0] == 0xF4 ==> Utf8(c)[1] < 0x90
    ensures |Utf8(c)| == if c < 0x80 then 1 else if c < 0x800 then 2 else if c < 0x10000 then 3 else 4
    ensures c < 0x80 ==> Utf8(c)[0] < 0x80
    ensures 0x80 <= c < 0x800 ==> 0xC2 <= Utf8(c)[0] < 0xE0
    ensures forall i :: 1 <= i < |Utf8(c)| ==> Continuation(Utf8(c)[i])
  {
  }

  /** The characters that are counted are those of the string. */
  lemma {:induction false} CharCountOfString(cs: seq<Scalar>)
    ensures CharCount(Utf8String(cs)) == Some(|cs|)
  {
    if cs != [] {
      CharLengthOfScalar(cs[0], Utf8String(cs[1..]));
      CharCountOfString(cs[1..]);
      var b := Utf8String(cs);
      assert b[|Utf8(cs[0])|..] == Utf8String(cs[1..]);
    }
  }

  lemma Digits(x: int, y: int)
    requires 0 <= y < 64
    ensures (x * 64 + y) / 64 == x && (x * 64 + y) % 64 == y
  {
  }

  lemma TwoBytes(x: int, y: int) returns (c: Scalar)
    requires 2 <= x < 0x20 && 0 <= y < 64
    ensures Utf8(c) == [0xC0 + x, 0x80 + y]
  {
    Digits(x, y);
    c := x * 64 + y;
  }

  lemma ThreeBytes(x: int, y: int, z: int) returns (c: Scalar)
    requires 0 <= x < 0x10 && 0 <= y < 64 && 0 <= z < 64 && (x == 0 ==> y >= 0x20) && (x == 0xD ==> y < 0x20)
    ensures Utf8(c) == [0xE0 + x, 0x80 + y, 0x80 + z]
  {
    var d := x * 64 + y;
    Digits(x, y);
    Digits(d, z);
    c := d * 64 + z;
    assert c / 4096 == c / 64 / 64;
  }

  lemma FourBytes(x: int, y: int, z: int, w: int) returns (c: Scalar)
    requires 0 <= x < 5 && 0 <= y < 64 && 0 <= z < 64 && 0 <= w < 64 && (x == 0 ==> y >= 0x10) && (x == 4 ==> y < 0x10)
    ensures Utf8(c) == [0xF0 + x, 0x80 + y, 0x80 + z, 0x80 + w]
  {
    var d := x * 64 + y;
    var e := d * 64 + z;
    Digits(x, y);
    Digits(d, z);
    Digits(e, w);
    c := e * 64 + w;
    assert c / 4096 == c / 64 / 64 && c / 262144 == c / 64 / 64 / 64;
  }

  lemma ScalarOf(b: Bytes) returns (c: Scalar)
    requires b != [] && CharLength(b).Some?
    ensures b[..CharLength(b).value] == Utf8(c)
  {
    hide Utf8;
    var n, first: int := CharLength(b).value, b[0];
    var second: int, third: int := if n > 1 then b[1] else 0, if n > 2 then b[2] else 0;
    var fourth: int := if n > 3 then b[3] else 0;
    match n
    case 1 =>
      c := first;
      OneByte(c);
    case 2 => c := TwoBytes(first - 0xC0, second - 0x80);
    case 3 => c := ThreeBytes(first - 0xE0, second - 0x80, third - 0x80);
    case _ => c := FourBytes(first - 0xF0, second - 0x80, third - 0x80, fourth - 0x80);
  }

  lemma OneByte(c: Scalar)
    requires c < 0x80
    ensures Utf8(c) == [c]
  {
  }

  /** And only strings are accepted. */
  lemma {:induction false} AcceptedIsString(b: Bytes) returns (cs: seq<Scalar>)
    requires CharCount(b).Some?
    ensures b == Utf8String(cs)
    decreases |b|
  {
    cs := [];
    if b != [] {
      var n := CharLength(b).value;
      var c := ScalarOf(b);
      var rest := AcceptedIsString(b[n..]);
      cs := [c] + rest;
      assert cs[1..] == rest && b == b[..n] + b[n..];
    }
  }

  // ---- BSON documents, as blobs with their own length ----

  predicate IsDoc(d: Bytes) {
    |d| >= 5 && IntOf(d[..4]) == |d| && d[|d| - 1] == 0
  }

  /** The documents a byte string is made of, one after the other, and nothing else. */
  function DecodeAll(b: Bytes): Result<seq<Bytes>>
    decreases |b|
  {
    if b == [] then Ok([])
    else if |b| < 5 then Err("not enough data")
    else
      var n := IntOf(b[..4]);
      if n < 5 || n > |b| || b[n - 1] != 0 then Err("invalid object size")
      else
        match DecodeAll(b[n..])
        case Ok(docs) => Ok([b[..n]] + docs)
        case Err(e) => Err(e)
  }

  function Join(parts: seq<Bytes>): Bytes {
    if parts == [] then [] else parts[0] + Join(parts[1..])
  }

  predicate AllDocs(docs: seq<Bytes>) {
    forall i :: 0 <= i < |docs| ==> IsDoc(docs[i])
  }

  /** A leading document is split off. */
  lemma DecodeFirst(d: Bytes, rest: Bytes)
    requires IsDoc(d)
    ensures DecodeAll(d + rest) ==
            match DecodeAll(rest) case Ok(docs) => Ok([d] + docs) case Err(e) => Err(e)
  {
    var b := d + rest;
    assert b[..4] == d[..4] && b[..|d|] == d && b[|d|..] == rest;
  }

  /** Decoding undoes the concatenation of documents. */
  lemma {:induction false} DecodeAllOfJoin(docs: seq<Bytes>)
    requires AllDocs(docs)
    ensures DecodeAll(Join(docs)) == Ok(docs)
  {
    if docs != [] {
      DecodeAllOfJoin(docs[1..]);
      DecodeFirst(docs[0], Join(docs[1..]));
      assert [docs[0]] + docs[1..] == docs;
    }
  }

  /** Only the concatenation of the documents decodes to them. */
  lemma {:induction false} JoinOfDecodeAll(b: Bytes)
    ensures DecodeAll(b).Ok? ==> Join(DecodeAll(b).value) == b
    decreases |b|
  {
    if DecodeAll(b).Ok? && b != [] {
      var n := IntOf(b[..4]);
      JoinOfDecodeAll(b[n..]);
      assert b == b[..n] + b[n..];
      assert ([b[..n]] + DecodeAll(b[n..]).value)[1..] == DecodeAll(b[n..]).value;
    }
  }
}
