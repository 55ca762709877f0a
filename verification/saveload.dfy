/**
 * The save/load stream as the SLXI chunk handlers see it: fixed-width
 * integers written big-endian one byte at a time, strings written as one
 * SLE_STR field, and the reads that take them back.
 *
 * The byte-level writer and reader (SlWriteByte, SlReadUint32, SLE_STR,
 * SlSkipBytes, SlCalcObjLength) live in saveload.cpp, which is not part of
 * this model. Here a chunk's payload is a sequence of tokens: a raw byte, or
 * a whole string field.
 */
module SaveLoad {

  type u8 = x: int | 0 <= x < 0x100
  type u16 = x: int | 0 <= x < 0x1_0000
  type u32 = x: int | 0 <= x < 0x1_0000_0000

  datatype Option<T> = None | Some(value: T)

  /** One unit of a chunk's payload: a raw byte, or an SLE_STR string field. */
  datatype Token = Byte(b: u8) | Str(s: string)

  /** The reasons a load is abandoned (SlErrorCorrupt and the reader's own errors). */
  datatype SlError =
    | EndOfChunk
    | BytesExpected
    | StringExpected
    | SlxiUnexpectedlyPresent
    | SlxiVersionTooNew(chunkVersion: u32)
    | SlxiUnknownHeaderFlags(flags: u32)
    | SlxiFeatureVersionTooLarge(name: string, version: u16, maxVersion: u16)
    | SlxiUnknownFeature(name: string, version: u16)
    | SlxiExtraDataLengthMismatch(name: string, version: u16)
    | SlxiUnexpectedExtraData(name: string, version: u16)

  /** A value, or the error that stops the load. */
  datatype Result<T> = Ok(value: T) | Fail(error: SlError) {
    predicate IsFailure() { Fail? }

    function PropagateFailure<U>(): Result<U>
      requires Fail?
    {
      Fail(error)
    }

    function Extract(): T
      requires Ok?
    {
      value
    }
  }

  /** Raw bytes, as SlWriteByte emits them one after the other. */
  function Bytes(b: seq<u8>): (r: seq<Token>)
    ensures |r| == |b|
  {
    if b == [] then [] else Bytes(b[..|b| - 1]) + [Byte(b[|b| - 1])]
  }

  /** 256 to the power `n`: the number of values `n` bytes can hold. */
  function Pow256(n: nat): (p: nat)
    ensures p > 0
  {
    if n == 0 then 1 else Pow256(n - 1) * 0x100
  }

  /** The low `n` bytes of `v`, most significant first. */
  function BigEndianBytes(v: nat, n: nat): (b: seq<u8>)
    ensures |b| == n
  {
    if n == 0 then [] else BigEndianBytes(v / 0x100, n - 1) + [v % 0x100]
  }

  /** The number whose big-endian bytes are `b`. */
  function BigEndianValue(b: seq<u8>): (v: nat)
    ensures v < Pow256(|b|)
  {
    if b == [] then 0 else BigEndianValue(b[..|b| - 1]) * 0x100 + b[|b| - 1]
  }

  /** SlWriteUint16: the low 16 bits of `v`, high byte first. */
  function U16Tokens(v: nat): seq<Token>
  {
    Bytes(BigEndianBytes(v, 2))
  }

  /** SlWriteUint32: the low 32 bits of `v`, most significant byte first. */
  function U32Tokens(v: nat): seq<Token>
  {
    Bytes(BigEndianBytes(v, 4))
  }

  /** Several uint32 values written one after another. */
  function U32Seq(vs: seq<u32>): (r: seq<Token>)
    ensures |r| == 4 * |vs|
  {
    if vs == [] then [] else U32Tokens(vs[0]) + U32Seq(vs[1..])
  }

  /** Bytes taken four at a time as big-endian uint32 values. */
  function BigEndianWords(b: seq<u8>): (w: seq<u32>)
    requires |b| % 4 == 0
    ensures |w| == |b| / 4
    decreases |b|
  {
    if b == [] then [] else [BigEndianValue(b[..4])] + BigEndianWords(b[4..])
  }

  /** SlReadByte on the rest `s` of the chunk: the byte and what follows it. */
  function ReadByte(s: seq<Token>): (r: Result<(u8, seq<Token>)>)
    ensures r.Ok? ==> s == [Byte(r.value.0)] + r.value.1
    ensures r.Fail? ==> r.error == (if s == [] then EndOfChunk else BytesExpected)
  {
    if s == [] then Fail(EndOfChunk)
    else match s[0]
      case Byte(b) => Ok((b, s[1..]))
      case Str(_) => Fail(BytesExpected)
  }

  /** `n` bytes read one after the other and put together most significant first. */
  function ReadBigEndian(s: seq<Token>, n: nat): (r: Result<(nat, seq<Token>)>)
    ensures r.Ok? ==> r.value.0 < Pow256(n) && |r.value.1| + n == |s|
  {
    if n == 0 then Ok((0, s))
    else
      var hi :- ReadBigEndian(s, n - 1);
      var lo :- ReadByte(hi.1);
      Ok((hi.0 * 0x100 + lo.0, lo.1))
  }

  /** SlReadUint16: two bytes, high byte first. */
  function ReadU16(s: seq<Token>): (r: Result<(u16, seq<Token>)>)
    ensures r.Ok? ==> |r.value.1| + 2 == |s|
  {
    var v :- ReadBigEndian(s, 2);
    Ok((v.0, v.1))
  }

  /** SlReadUint32: four bytes, most significant first. */
  function ReadU32(s: seq<Token>): (r: Result<(u32, seq<Token>)>)
    ensures r.Ok? ==> |r.value.1| + 4 == |s|
  {
    var v :- ReadBigEndian(s, 4);
    Ok((v.0, v.1))
  }

  /** Reads one SLE_STR field. */
  function ReadStr(s: seq<Token>): (r: Result<(string, seq<Token>)>)
    ensures r.Ok? ==> s == [Str(r.value.0)] + r.value.1
    ensures r.Fail? ==> r.error == (if s == [] then EndOfChunk else StringExpected)
  {
    if s == [] then Fail(EndOfChunk)
    else match s[0]
      case Str(str) => Ok((str, s[1..]))
      case Byte(_) => Fail(StringExpected)
  }

  /** SlSkipBytes: consumes `n` raw bytes, one at a time. */
  function SkipBytes(s: seq<Token>, n: nat): (r: Result<seq<Token>>)
    ensures r.Ok? ==> |r.value| + n == |s|
  {
    if n == 0 then Ok(s)
    else
      var before :- SkipBytes(s, n - 1);
      var b :- ReadByte(before);
      Ok(b.1)
  }

  /** SlGetGammaLength: bytes taken by the length prefix of a string of length `i`. */
  function GammaLength(i: nat): nat
  {
    1 + (if i >= 0x80 then 1 else 0) + (if i >= 0x4000 then 1 else 0)
      + (if i >= 0x20_0000 then 1 else 0) + (if i >= 0x1000_0000 then 1 else 0)
  }

  /** Bytes an SLE_STR field occupies: its length prefix and its characters. */
  function StrSize(str: string): nat
  {
    GammaLength(|str|) + |str|
  }

  function TokenSize(t: Token): nat
  {
    match t
    case Byte(_) => 1
    case Str(str) => StrSize(str)
  }

  /** Number of bytes a token sequence occupies in the savegame. */
  function StreamSize(s: seq<Token>): nat
  {
    if s == [] then 0 else StreamSize(s[..|s| - 1]) + TokenSize(s[|s| - 1])
  }

  lemma {:induction false} StreamSizeAppend(a: seq<Token>, b: seq<Token>)
    ensures StreamSize(a + b) == StreamSize(a) + StreamSize(b)
    decreases |b|
  {
    if b == [] {
      assert a + b == a;
    } else {
      var b' := b[..|b| - 1];
      assert (a + b)[..|a + b| - 1] == a + b';
      assert (a + b)[|a + b| - 1] == b[|b| - 1];
      StreamSizeAppend(a, b');
    }
  }

  lemma {:induction false} StreamSizeOfBytes(b: seq<u8>)
    ensures StreamSize(Bytes(b)) == |b|
    decreases |b|
  {
    if b != [] {
      var b' := b[..|b| - 1];
      assert Bytes(b)[..|b| - 1] == Bytes(b');
      StreamSizeOfBytes(b');
    }
  }


  /** A fixed-width field of `n` bytes occupies `n` bytes in the savegame. */
  lemma FixedWidthSizes(v: nat)
    ensures StreamSize(U32Tokens(v)) == 4 && StreamSize(U16Tokens(v)) == 2
  {
    StreamSizeOfBytes(BigEndianBytes(v, 4));
    StreamSizeOfBytes(BigEndianBytes(v, 2));
  }

  /** Appending is associative: what follows two fields is what follows the second. */
  lemma AppendAssoc(a: seq<Token>, b: seq<Token>, c: seq<Token>)
    ensures a + b + c == a + (b + c)
  {
  }

  /** Bytes written in two parts are the bytes of the two parts, one after the other. */
  lemma {:induction false} BytesAppend(a: seq<u8>, b: seq<u8>)
    ensures Bytes(a + b) == Bytes(a) + Bytes(b)
    decreases |b|
  {
    if b == [] {
      assert a + b == a;
    } else {
      var b' := b[..|b| - 1];
      assert (a + b)[..|a + b| - 1] == a + b';
      BytesAppend(a, b');
    }
  }

  /** A value below `p * 0x100` splits into a high part below `p` and a low byte. */
  lemma DivMod256(v: nat, p: nat) returns (q: nat)
    requires v < p * 0x100
    ensures q == v / 0x100 && q < p && q * 0x100 + v % 0x100 == v
  {
    q := v / 0x100;
  }

  /** The value of the low `n` bytes of `v`: that of the `n - 1` bytes above the lowest, then the lowest. */
  lemma BigEndianValueStep(v: nat, n: nat)
    requires n > 0
    ensures BigEndianValue(BigEndianBytes(v, n)) == BigEndianValue(BigEndianBytes(v / 0x100, n - 1)) * 0x100 + v % 0x100
  {
    var b := BigEndianBytes(v, n);
    assert b[..n - 1] == BigEndianBytes(v / 0x100, n - 1);
  }

  /** The bytes of a value that fits in `n` bytes give the value back. */
  lemma {:induction false} BigEndianValueOfBytes(v: nat, n: nat)
    requires v < Pow256(n)
    ensures BigEndianValue(BigEndianBytes(v, n)) == v
  {
    if n > 0 {
      var q := DivMod256(v, Pow256(n - 1));
      BigEndianValueOfBytes(q, n - 1);
      BigEndianValueStep(v, n);
    }
  }

  /** The value of some bytes gives the bytes back. */
  lemma {:induction false} BigEndianBytesOfValue(b: seq<u8>)
    ensures BigEndianBytes(BigEndianValue(b), |b|) == b
    decreases |b|
  {
    if b != [] {
      var b' := b[..|b| - 1];
      var v := BigEndianValue(b);
      BigEndianBytesOfValue(b');
      assert v / 0x100 == BigEndianValue(b') && v % 0x100 == b[|b| - 1];
      assert b' + [b[|b| - 1]] == b;
    }
  }

  /** Reading back `n` written bytes puts them together as their big-endian value, and leaves what follows. */
  lemma {:induction false} ReadBigEndianOf(b: seq<u8>, rest: seq<Token>)
    ensures ReadBigEndian(Bytes(b) + rest, |b|) == Ok((BigEndianValue(b), rest))
    decreases |b|
  {
    if b == [] {
      assert Bytes(b) + rest == rest;
    } else {
      var b', last := b[..|b| - 1], b[|b| - 1];
      AppendAssoc(Bytes(b'), [Byte(last)], rest);
      ReadBigEndianOf(b', [Byte(last)] + rest);
      assert ([Byte(last)] + rest)[1..] == rest;
      assert ReadByte([Byte(last)] + rest) == Ok((last, rest));
    }
  }

  /** Reading back a uint16 gives the value written, and leaves what follows. */
  lemma ReadU16Of(v: u16, rest: seq<Token>)
    ensures ReadU16(U16Tokens(v) + rest) == Ok((v, rest))
  {
    ReadBigEndianOf(BigEndianBytes(v, 2), rest);
    BigEndianValueOfBytes(v, 2);
  }

  /** Reading back a uint32 gives the value written, and leaves what follows. */
  lemma ReadU32Of(v: u32, rest: seq<Token>)
    ensures ReadU32(U32Tokens(v) + rest) == Ok((v, rest))
  {
    ReadBigEndianOf(BigEndianBytes(v, 4), rest);
    BigEndianValueOfBytes(v, 4);
  }

  /** Reading back a string field gives the string written, and leaves what follows. */
  lemma ReadStrOf(str: string, rest: seq<Token>)
    ensures ReadStr([Str(str)] + rest) == Ok((str, rest))
  {
    assert ([Str(str)] + rest)[1..] == rest;
  }

  /** Skipping over written bytes succeeds and leaves what follows. */
  lemma {:induction false} SkipBytesOf(b: seq<u8>, rest: seq<Token>)
    ensures SkipBytes(Bytes(b) + rest, |b|) == Ok(rest)
    decreases |b|
  {
    if b == [] {
      assert Bytes(b) + rest == rest;
    } else {
      var b', last := b[..|b| - 1], b[|b| - 1];
      AppendAssoc(Bytes(b'), [Byte(last)], rest);
      SkipBytesOf(b', [Byte(last)] + rest);
      assert ([Byte(last)] + rest)[1..] == rest;
      assert ReadByte([Byte(last)] + rest) == Ok((last, rest));
    }
  }

  /** Bytes whose number is a multiple of four are the uint32 values they spell, written one after another. */
  lemma {:induction false} BytesAsWords(b: seq<u8>)
    requires |b| % 4 == 0
    ensures Bytes(b) == U32Seq(BigEndianWords(b))
    decreases |b|
  {
    if b != [] {
      var w, r := b[..4], b[4..];
      assert b == w + r;
      BytesAppend(w, r);
      BigEndianBytesOfValue(w);
      BytesAsWords(r);
      var ws := BigEndianWords(b);
      assert ws[0] == BigEndianValue(w) && ws[1..] == BigEndianWords(r);
    }
  }
}
