/** The length-checked fields that packet payloads are made of. */
module Fields {
  import opened Wire
  import opened VarInt

  /** A read that fails unless `n` bytes remain. */
  function TakeBytes(b: Bytes, pos: nat, n: nat): (r: Result<(Bytes, nat)>)
    ensures r.Ok? <==> pos + n <= |b|
    ensures r.Ok? ==> r.value.1 == pos + n && |r.value.0| == n && At(b, pos, r.value.0)
  {
    if pos + n > |b| then Err(UnexpectedEof) else Ok((b[pos..pos + n], pos + n))
  }

  function TakeByte(b: Bytes, pos: nat): (r: Result<(byte, nat)>)
    ensures r.Ok? ==> r.value.1 == pos + 1 <= |b| && r.value.0 == b[pos]
  {
    if pos >= |b| then Err(UnexpectedEof) else Ok((b[pos], pos + 1))
  }

  /** A VarInt length followed by that many bytes. */
  function TakeChunk(b: Bytes, pos: nat): (r: Result<(Bytes, nat)>)
    ensures r.Ok? ==> pos < r.value.1 <= |b| && |r.value.0| < 0x8000_0000
  {
    var (len, next) :- DecodeVarInt(b, pos);
    if len < 0 then Err(UnexpectedEof) else TakeBytes(b, next, len)
  }

  /** A chunk that must be UTF-8 text. */
  function TakeString(b: Bytes, pos: nat): (r: Result<(Bytes, nat)>)
    ensures r.Ok? ==> pos < r.value.1 <= |b| && IsText(r.value.0)
  {
    var (s, next) :- TakeChunk(b, pos);
    if ValidUtf8(s) then Ok((s, next)) else Err(InvalidData)
  }

  /** The length (cast to an i32) followed by the bytes. */
  function PutString(s: Bytes): Bytes { EncodeVarInt(AsI32(|s|)) + s }

  /** Strings the format can carry: text whose length survives the cast to an i32. */
  predicate IsText(s: Bytes) { ValidUtf8(s) && |s| < 0x8000_0000 }

  // ----- Round trips -----

  lemma BytesRoundTrip(b: Bytes, pos: nat, x: Bytes)
    requires At(b, pos, x)
    ensures TakeBytes(b, pos, |x|) == Ok((x, pos + |x|))
  {}

  lemma ChunkRoundTrip(b: Bytes, pos: nat, s: Bytes)
    requires |s| < 0x8000_0000 && At(b, pos, PutString(s))
    ensures TakeChunk(b, pos) == Ok((s, pos + |PutString(s)|))
  {
    hide DecodeVarInt, EncodeVarInt;
    AtSplit(b, pos, EncodeVarInt(|s|), s);
    VarIntRoundTrip(b, pos, |s|);
  }

  lemma StringRoundTrip(b: Bytes, pos: nat, s: Bytes)
    requires IsText(s) && At(b, pos, PutString(s))
    ensures TakeString(b, pos) == Ok((s, pos + |PutString(s)|))
  {
    ChunkRoundTrip(b, pos, s);
  }

  // ----- Every reader depends only on the bytes it consumes -----

  lemma BytesLocal(b: Bytes, pos: nat, c: Bytes, at: nat, n: nat)
    requires TakeBytes(b, pos, n).Ok? && Copied(b, pos, pos + n, c, at)
    ensures TakeBytes(c, at, n) == Ok((TakeBytes(b, pos, n).value.0, at + n))
  {}

  lemma ByteLocal(b: Bytes, pos: nat, c: Bytes, at: nat)
    requires TakeByte(b, pos).Ok? && Copied(b, pos, pos + 1, c, at)
    ensures TakeByte(c, at) == Ok((b[pos], at + 1))
  {
    CopiedByte(b, pos, pos + 1, c, at);
  }

  lemma ChunkLocal(b: Bytes, pos: nat, c: Bytes, at: nat)
    requires TakeChunk(b, pos).Ok? && Copied(b, pos, TakeChunk(b, pos).value.1, c, at)
    ensures var (s, next) := TakeChunk(b, pos).value; TakeChunk(c, at) == Ok((s, at + next - pos))
  {
    hide DecodeVarInt;
    var (len, next) := DecodeVarInt(b, pos).value;
    CopiedSplit(b, pos, next, next + len, c, at);
    VarIntLocal(b, pos, c, at);
    BytesLocal(b, next, c, at + next - pos, len);
  }

  lemma StringLocal(b: Bytes, pos: nat, c: Bytes, at: nat)
    requires TakeString(b, pos).Ok? && Copied(b, pos, TakeString(b, pos).value.1, c, at)
    ensures var (s, next) := TakeString(b, pos).value; TakeString(c, at) == Ok((s, at + next - pos))
  {
    hide TakeChunk;
    ChunkLocal(b, pos, c, at);
  }

  // ----- Big-endian integers -----

  function BigEndian(b: Bytes): (n: nat)
  {
    if b == [] then 0 else 256 * BigEndian(b[..|b| - 1]) + b[|b| - 1]
  }

  function PutBigEndian(n: nat, width: nat): (b: Bytes)
    ensures |b| == width
  {
    if width == 0 then [] else PutBigEndian(n / 256, width - 1) + [n % 256]
  }

  function Pow256(n: nat): (p: nat)
    ensures p >= 1
  {
    if n == 0 then 1 else 256 * Pow256(n - 1)
  }

  lemma {:induction false} BigEndianInverse(n: nat, width: nat)
    requires n < Pow256(width)
    ensures BigEndian(PutBigEndian(n, width)) == n
  {
    if width > 0 {
      BigEndianInverse(n / 256, width - 1);
      var b := PutBigEndian(n / 256, width - 1);
      assert (b + [n % 256])[..width - 1] == b;
    }
  }

  /** `put_i64`. */
  function PutI64(v: i64): (b: Bytes)
    ensures |b| == 8
  {
    PutBigEndian(v % TWO64, 8)
  }

  /** `get_i64` on the eight bytes read. */
  function I64(b: Bytes): i64 { AsI64(BigEndian(b)) }

  /** Reading back an i64 that was written gives it back. */
  lemma I64RoundTrip(v: i64)
    ensures I64(PutI64(v)) == v
  {
    assert Pow256(4) == 256 * 256 * Pow256(2);
    assert Pow256(6) == 256 * 256 * Pow256(4);
    assert Pow256(8) == 256 * 256 * Pow256(6) == TWO64;
    BigEndianInverse(v % TWO64, 8);
  }
}
