/** The java.io.DataOutput / DataInput primitives the call log backup uses:
    big-endian fixed-width two's-complement integers, one-byte booleans and
    writeUTF strings (a 2-byte big-endian length, then the string's bytes).
    Writers return the bytes they append; readers take the unread input and
    return the value together with what is left after it. */
module Wire {

  type byte = x: int | 0 <= x < 256

  /** A Java String, held as the bytes writeUTF puts on the wire. */
  type Text = seq<byte>

  type int32 = x: int | -0x8000_0000 <= x < 0x8000_0000
  type int64 = x: int | -0x8000_0000_0000_0000 <= x < 0x8000_0000_0000_0000

  /** writeUTF refuses strings whose encoding is longer than this. */
  const MAX_UTF_LENGTH := 0xFFFF

  datatype Option<+T> = None | Some(value: T) {
    function GetOr(default: T): T {
      match this
      case Some(v) => v
      case None => default
    }
  }

  /** The ways a read or a write can fail. */
  datatype Error =
    | EndOfInput                  // EOFException: the input ran out mid-value
    | StringTooLong               // UTFDataFormatException from writeUTF
    | FutureVersion(version: int) // a record newer than this codec
    | UnknownLayout(version: int) // a record version whose layout is not modelled

  datatype Result<+T> = Ok(value: T) | Err(error: Error) {
    predicate IsFailure() { Err? }
    function PropagateFailure<U>(): Result<U> requires Err? { Err(error) }
    function Extract(): T requires Ok? { value }
  }

  /** A value read from the front of the input, and the input after it. */
  datatype Read<+T> = Read(value: T, rest: seq<byte>)

  /** The bytes of an ASCII literal; for ASCII, writeUTF's bytes are the characters' codes. */
  function Ascii(s: string): (t: Text)
    ensures |t| == |s|
  {
    seq(|s|, i requires 0 <= i < |s| => (s[i] as int) % 256)
  }

  function Pow256(n: nat): (p: nat)
    ensures p >= 1
  {
    if n == 0 then 1 else 256 * Pow256(n - 1)
  }

  lemma Pow256Values()
    ensures Pow256(2) == 0x1_0000
    ensures Pow256(4) == 0x1_0000_0000
    ensures Pow256(8) == 0x1_0000_0000_0000_0000
  {
  }

  /** The low n bytes of u, most significant first. */
  function ToBigEndian(u: nat, n: nat): (r: seq<byte>)
    ensures |r| == n
  {
    if n == 0 then [] else ToBigEndian(u / 256, n - 1) + [u % 256]
  }

  /** The unsigned number a big-endian byte string denotes. */
  function FromBigEndian(s: seq<byte>): (u: nat)
    ensures u < Pow256(|s|)
  {
    if s == [] then 0 else FromBigEndian(s[..|s| - 1]) * 256 + s[|s| - 1]
  }

  lemma {:induction false} FromToBigEndian(u: nat, n: nat)
    requires u < Pow256(n)
    ensures FromBigEndian(ToBigEndian(u, n)) == u
  {
    if n > 0 {
      var s := ToBigEndian(u, n);
      assert s[..|s| - 1] == ToBigEndian(u / 256, n - 1);
      FromToBigEndian(u / 256, n - 1);
    }
  }

  lemma {:induction false} ToFromBigEndian(s: seq<byte>)
    ensures ToBigEndian(FromBigEndian(s), |s|) == s
  {
    if s != [] {
      var init := s[..|s| - 1];
      var u := FromBigEndian(s);
      assert u / 256 == FromBigEndian(init) && u % 256 == s[|s| - 1];
      ToFromBigEndian(init);
      assert s == init + [s[|s| - 1]];
    }
  }

  /** DataOutput.writeInt. */
  function EncodeInt(x: int32): (r: seq<byte>)
    ensures |r| == 4
  {
    Pow256Values();
    ToBigEndian(x % 0x1_0000_0000, 4)
  }

  /** The int that four bytes denote, as DataInput.readInt returns it. */
  function IntOf(b: seq<byte>): int32
    requires |b| == 4
  {
    Pow256Values();
    var u := FromBigEndian(b);
    if u >= 0x8000_0000 then u - 0x1_0000_0000 else u
  }

  /** DataOutput.writeLong. */
  function EncodeLong(x: int64): (r: seq<byte>)
    ensures |r| == 8
  {
    Pow256Values();
    ToBigEndian(x % 0x1_0000_0000_0000_0000, 8)
  }

  /** The long that eight bytes denote, as DataInput.readLong returns it. */
  function LongOf(b: seq<byte>): int64
    requires |b| == 8
  {
    Pow256Values();
    var u := FromBigEndian(b);
    if u >= 0x8000_0000_0000_0000 then u - 0x1_0000_0000_0000_0000 else u
  }

  lemma IntRoundTrip(x: int32)
    ensures IntOf(EncodeInt(x)) == x
  {
    Pow256Values();
    FromToBigEndian(x % 0x1_0000_0000, 4);
  }

  lemma LongRoundTrip(x: int64)
    ensures LongOf(EncodeLong(x)) == x
  {
    Pow256Values();
    FromToBigEndian(x % 0x1_0000_0000_0000_0000, 8);
  }

  /** Every four bytes are the encoding of exactly one int. */
  lemma EncodeIntOf(b: seq<byte>)
    requires |b| == 4
    ensures EncodeInt(IntOf(b)) == b
  {
    Pow256Values();
    var u := FromBigEndian(b);
    assert IntOf(b) % 0x1_0000_0000 == u;
    ToFromBigEndian(b);
  }

  /** DataOutput.writeBoolean. */
  function EncodeBool(b: bool): seq<byte> {
    [if b then 1 else 0]
  }

  /** DataOutput.writeUTF: a 2-byte length, then the bytes; too long a string throws. */
  function EncodeUtf(t: Text): (r: Result<seq<byte>>)
    ensures r.Ok? <==> |t| <= MAX_UTF_LENGTH
    ensures r.Ok? ==> |r.value| == 2 + |t| && r.value[2..] == t
  {
    if |t| > MAX_UTF_LENGTH then Err(StringTooLong)
    else Pow256Values(); Ok(ToBigEndian(|t|, 2) + t)
  }

  /** A nullable string: a presence boolean, then writeUTF when present. */
  function EncodeNullable(s: Option<Text>): (r: Result<seq<byte>>)
    ensures r.Ok? <==> (s.Some? ==> |s.value| <= MAX_UTF_LENGTH)
    ensures s.None? ==> r == Ok([0])
    ensures s.Some? && r.Ok? ==> r.value == [1] + EncodeUtf(s.value).value
  {
    match s
    case None => Ok(EncodeBool(false))
    case Some(t) =>
      var utf :- EncodeUtf(t);
      Ok(EncodeBool(true) + utf)
  }

  function ReadInt(s: seq<byte>): Result<Read<int32>> {
    if |s| < 4 then Err(EndOfInput) else Ok(Read(IntOf(s[..4]), s[4..]))
  }

  function ReadLong(s: seq<byte>): Result<Read<int64>> {
    if |s| < 8 then Err(EndOfInput) else Ok(Read(LongOf(s[..8]), s[8..]))
  }

  /** DataInput.readBoolean: any non-zero byte is true. */
  function ReadBool(s: seq<byte>): Result<Read<bool>> {
    if |s| < 1 then Err(EndOfInput) else Ok(Read(s[0] != 0, s[1..]))
  }

  function ReadUtf(s: seq<byte>): Result<Read<Text>> {
    if |s| < 2 then Err(EndOfInput)
    else
      var n := FromBigEndian(s[..2]);
      if |s| < 2 + n then Err(EndOfInput) else Ok(Read(s[2..2 + n], s[2 + n..]))
  }

  function ReadNullable(s: seq<byte>): Result<Read<Option<Text>>> {
    var present :- ReadBool(s);
    if !present.value then Ok(Read(None, present.rest))
    else
      var t :- ReadUtf(present.rest);
      Ok(Read(Some(t.value), t.rest))
  }

  lemma ReadIntOfEncoded(x: int32, rest: seq<byte>)
    ensures ReadInt(EncodeInt(x) + rest) == Ok(Read(x, rest))
  {
    var s := EncodeInt(x) + rest;
    assert s[..4] == EncodeInt(x) && s[4..] == rest;
    IntRoundTrip(x);
  }

  lemma ReadLongOfEncoded(x: int64, rest: seq<byte>)
    ensures ReadLong(EncodeLong(x) + rest) == Ok(Read(x, rest))
  {
    var s := EncodeLong(x) + rest;
    assert s[..8] == EncodeLong(x) && s[8..] == rest;
    LongRoundTrip(x);
  }

  lemma ReadUtfOfEncoded(t: Text, rest: seq<byte>)
    requires |t| <= MAX_UTF_LENGTH
    ensures ReadUtf(EncodeUtf(t).value + rest) == Ok(Read(t, rest))
  {
    var len := ToBigEndian(|t|, 2);
    assert EncodeUtf(t).value == len + t;
    var s := len + (t + rest);
    assert EncodeUtf(t).value + rest == s;
    assert s[..2] == len;
    assert FromBigEndian(s[..2]) == |t| by {
      Pow256Values();
      FromToBigEndian(|t|, 2);
    }
    assert s[2..2 + |t|] == t;
    assert s[2 + |t|..] == rest;
  }

  lemma ReadNullableOfEncoded(t: Option<Text>, rest: seq<byte>)
    requires EncodeNullable(t).Ok?
    ensures ReadNullable(EncodeNullable(t).value + rest) == Ok(Read(t, rest))
  {
    var s := EncodeNullable(t).value + rest;
    if t.Some? {
      var utf := EncodeUtf(t.value).value;
      ReadUtfOfEncoded(t.value, rest);
      assert s == [1] + (utf + rest);
      assert s[1..] == utf + rest;
    } else {
      assert s == [0] + rest;
    }
  }
}
