/** VarInts and VarLongs: unsigned LEB128 (section 7.6 of DWARF 5) capped at 5 and 10 bytes. */
module VarInt {
  import opened Wire

  const TWO32 := 0x1_0000_0000
  const TWO64 := 0x1_0000_0000_0000_0000

  // ----- Specification -----

  /** Little-endian base-128 groups, every group but the last flagged with the high bit. */
  function Leb(n: nat): (b: Bytes)
    ensures 1 <= |b|
  {
    if n < 128 then [n] else [n % 128 + 128] + Leb(n / 128)
  }

  /** The first value that `k` groups cannot hold when the last group stays below `cap`. */
  function Limit(k: nat, cap: nat): (n: nat)
    requires 1 <= k && 1 <= cap
    ensures k >= 2 ==> n >= 128
  {
    if k == 1 then cap else 128 * Limit(k - 1, cap)
  }

  /** Reads at most `k` groups at `pos`, the `k`-th of which must stay below `cap`. */
  function ReadLeb(b: Bytes, pos: nat, k: nat, cap: nat): (r: Result<(nat, nat)>)
    requires 1 <= k && 1 <= cap <= 128
    ensures r.Ok? ==> pos < r.value.1 <= |b| && r.value.0 < Limit(k, cap)
    decreases k
  {
    if pos >= |b| then Err(UnexpectedEof)
    else if k == 1 && b[pos] >= cap then Err(VarIntOverflow)
    else if b[pos] < 128 then Ok((b[pos], pos + 1))
    else if k == 1 then Err(VarIntOverflow)
    else
      var (v, next) :- ReadLeb(b, pos + 1, k - 1, cap);
      Ok((b[pos] - 128 + 128 * v, next))
  }

  /** The wire form of an i32: the groups of its 32-bit pattern. */
  function EncodeVarInt(v: i32): (b: Bytes)
    ensures 1 <= |b|
  {
    Leb(v % TWO32)
  }

  /** The VarInt at `pos` and the position after it. */
  function DecodeVarInt(b: Bytes, pos: nat): (r: Result<(i32, nat)>)
    ensures r.Ok? ==> pos < r.value.1 <= |b|
  {
    var (v, next) :- ReadLeb(b, pos, 5, 16);
    Ok((AsI32(v), next))
  }

  function EncodeVarLong(v: i64): (b: Bytes) { Leb(v % TWO64) }

  function DecodeVarLong(b: Bytes, pos: nat): (r: Result<(i64, nat)>)
  {
    var (v, next) :- ReadLeb(b, pos, 10, 2);
    Ok((AsI64(v), next))
  }

  /** `varint_size`. */
  function VarIntSize(v: i32): (n: nat)
  {
    var u := v % TWO32;
    if u <= 0x7F then 1
    else if u <= 0x3FFF then 2
    else if u <= 0x1F_FFFF then 3
    else if u <= 0x0FFF_FFFF then 4
    else 5
  }

  // ----- Laws -----

  lemma LimitValues()
    ensures Limit(5, 16) == TWO32 && Limit(10, 2) == TWO64
  {
    assert Limit(3, 16) == 128 * 128 * 16;
    assert Limit(5, 16) == 128 * 128 * Limit(3, 16);
    assert Limit(3, 2) == 128 * 128 * 2;
    assert Limit(5, 2) == 128 * 128 * Limit(3, 2);
    assert Limit(7, 2) == 128 * 128 * Limit(5, 2);
    assert Limit(9, 2) == 128 * 128 * Limit(7, 2);
  }

  lemma LebUnfold(n: nat)
    requires n >= 128
    ensures Leb(n) == [n % 128 + 128] + Leb(n / 128)
  {}

  lemma {:induction false} ReadInvertsLeb(b: Bytes, pos: nat, n: nat, k: nat, cap: nat)
    requires 1 <= k && 1 <= cap <= 128 && n < Limit(k, cap) && At(b, pos, Leb(n))
    ensures ReadLeb(b, pos, k, cap) == Ok((n, pos + |Leb(n)|))
    decreases k
  {
    AtByte(b, pos, Leb(n), 0);
    if n >= 128 {
      LebUnfold(n);
      AtSplit(b, pos, [n % 128 + 128], Leb(n / 128));
      ReadInvertsLeb(b, pos + 1, n / 128, k - 1, cap);
    }
  }

  /** Decoding undoes encoding on every i32, wherever it lies and whatever surrounds it. */
  lemma VarIntRoundTrip(b: Bytes, pos: nat, v: i32)
    requires At(b, pos, EncodeVarInt(v))
    ensures DecodeVarInt(b, pos) == Ok((v, pos + |EncodeVarInt(v)|))
  {
    hide ReadLeb, Leb, Limit;
    LimitValues();
    ReadInvertsLeb(b, pos, v % TWO32, 5, 16);
  }

  /** The same for every i64. */
  lemma VarLongRoundTrip(b: Bytes, pos: nat, v: i64)
    requires At(b, pos, EncodeVarLong(v))
    ensures DecodeVarLong(b, pos) == Ok((v, pos + |EncodeVarLong(v)|))
  {
    hide ReadLeb, Leb, Limit;
    LimitValues();
    ReadInvertsLeb(b, pos, v % TWO64, 10, 2);
  }

  /** The encoder writes exactly `varint_size` bytes, between one and five. */
  lemma SizeIsEncodedLength(v: i32)
    ensures |EncodeVarInt(v)| == VarIntSize(v)
  {
    var u := v % TWO32;
    if u >= 0x80 {
      LebUnfold(u);
      if u >= 0x4000 {
        LebUnfold(u / 128);
        if u >= 0x20_0000 {
          LebUnfold(u / 128 / 128);
          if u >= 0x1000_0000 {
            LebUnfold(u / 128 / 128 / 128);
          }
        }
      }
    }
  }

  /** No encoding is a proper prefix of another, and none is shared by two values. */
  lemma EncodingsArePrefixFree(v: i32, w: i32, suffix: Bytes)
    requires EncodeVarInt(w) == EncodeVarInt(v) + suffix
    ensures v == w && suffix == []
  {
    AtSelf(EncodeVarInt(v), suffix);
    VarIntRoundTrip(EncodeVarInt(w), 0, v);
    VarIntRoundTrip(EncodeVarInt(w), 0, w);
  }

  /** The same for VarLongs. */
  lemma LongEncodingsArePrefixFree(v: i64, w: i64, suffix: Bytes)
    requires EncodeVarLong(w) == EncodeVarLong(v) + suffix
    ensures v == w && suffix == []
  {
    AtSelf(EncodeVarLong(v), suffix);
    VarLongRoundTrip(EncodeVarLong(w), 0, v);
    VarLongRoundTrip(EncodeVarLong(w), 0, w);
  }

  /** The bytes of `b` from `pos` to `next` stand for `n`, canonically exactly when the last is needed. */
  ghost predicate Represents(b: Bytes, pos: nat, next: nat, n: nat)
  {
    && pos < next <= |b|
    && |Leb(n)| <= next - pos
    && (|Leb(n)| == next - pos <==> next == pos + 1 || b[next - 1] != 0)
    && (|Leb(n)| == next - pos ==> Leb(n) == b[pos..next])
  }

  lemma RepresentsStep(b: Bytes, pos: nat, next: nat, v: nat)
    requires pos < |b| && b[pos] >= 128 && Represents(b, pos + 1, next, v)
    requires next == pos + 2 ==> v == b[pos + 1]
    ensures Represents(b, pos, next, b[pos] - 128 + 128 * v)
  {
    var n := b[pos] - 128 + 128 * v;
    assert n / 128 == v && n % 128 == b[pos] - 128;
    assert b[pos..next] == [b[pos]] + b[pos + 1..next];
    if v == 0 {
      assert Leb(n) == [n] && |Leb(v)| == 1;
    } else {
      LebUnfold(n);
    }
  }

  lemma {:induction false} CanonicalReads(b: Bytes, pos: nat, k: nat, cap: nat)
    requires 1 <= k && 1 <= cap <= 128
    requires ReadLeb(b, pos, k, cap).Ok?
    ensures var (n, next) := ReadLeb(b, pos, k, cap).value;
            next <= pos + k && Represents(b, pos, next, n) && (next == pos + 1 ==> n == b[pos])
    decreases k
  {
    if b[pos] >= 128 {
      CanonicalReads(b, pos + 1, k - 1, cap);
      var (v, next) := ReadLeb(b, pos + 1, k - 1, cap).value;
      RepresentsStep(b, pos, next, v);
    }
  }

  /**
   * Any accepted k-byte VarInt re-encodes in at most k bytes: in exactly the same bytes when k = 1
   * or its last byte is not zero, and in fewer otherwise.
   */
  lemma ReencodingNeverGrows(b: Bytes, pos: nat)
    requires DecodeVarInt(b, pos).Ok?
    ensures var (v, next) := DecodeVarInt(b, pos).value; var again := EncodeVarInt(v);
            && next <= pos + 5 && |again| <= next - pos
            && (|again| == next - pos <==> next == pos + 1 || b[next - 1] != 0)
            && (again == b[pos..next] <==> next == pos + 1 || b[next - 1] != 0)
  {
    hide ReadLeb, Leb, Limit;
    LimitValues();
    CanonicalReads(b, pos, 5, 16);
    assert DecodeVarInt(b, pos).value.0 % TWO32 == ReadLeb(b, pos, 5, 16).value.0;
  }

  /** The same for an accepted VarLong of at most ten bytes. */
  lemma LongReencodingNeverGrows(b: Bytes, pos: nat)
    requires DecodeVarLong(b, pos).Ok?
    ensures var (v, next) := DecodeVarLong(b, pos).value; var again := EncodeVarLong(v);
            && pos < next <= pos + 10 && next <= |b| && |again| <= next - pos
            && (|again| == next - pos <==> next == pos + 1 || b[next - 1] != 0)
            && (again == b[pos..next] <==> next == pos + 1 || b[next - 1] != 0)
  {
    hide ReadLeb, Leb, Limit;
    LimitValues();
    CanonicalReads(b, pos, 10, 2);
    assert DecodeVarLong(b, pos).value.0 % TWO64 == ReadLeb(b, pos, 10, 2).value.0;
  }

  /** All bytes of an encoding but the last carry the high bit; the last is zero only for zero. */
  lemma {:induction false} LebShape(n: nat)
    ensures var b := Leb(n);
            && b[|b| - 1] < 128
            && (forall i :: 0 <= i < |b| - 1 ==> b[i] >= 128)
            && (n > 0 ==> b[|b| - 1] != 0)
  {
    if n >= 128 {
      LebShape(n / 128);
    }
  }

  /** The last byte of a VarInt has the high bit clear. */
  lemma VarIntEndsLow(b: Bytes, pos: nat)
    requires DecodeVarInt(b, pos).Ok?
    ensures b[DecodeVarInt(b, pos).value.1 - 1] < 128
  {
    LebEndsLow(b, pos, 5, 16);
  }

  /** Its first byte has the high bit set unless it is the only one. */
  lemma VarIntStartsHigh(b: Bytes, pos: nat)
    requires DecodeVarInt(b, pos).Ok? && DecodeVarInt(b, pos).value.1 > pos + 1
    ensures b[pos] >= 128
  {}

  lemma {:induction false} LebEndsLow(b: Bytes, pos: nat, k: nat, cap: nat)
    requires 1 <= k && 1 <= cap <= 128 && ReadLeb(b, pos, k, cap).Ok?
    ensures b[ReadLeb(b, pos, k, cap).value.1 - 1] < 128
    decreases k
  {
    if b[pos] >= 128 {
      LebEndsLow(b, pos + 1, k - 1, cap);
    }
  }

  /** A read depends only on the bytes it consumes, not on where they lie or what follows. */
  lemma {:induction false} LebLocal(b: Bytes, pos: nat, c: Bytes, at: nat, k: nat, cap: nat)
    requires 1 <= k && 1 <= cap <= 128
    requires ReadLeb(b, pos, k, cap).Ok? && Copied(b, pos, ReadLeb(b, pos, k, cap).value.1, c, at)
    ensures var (v, next) := ReadLeb(b, pos, k, cap).value;
            ReadLeb(c, at, k, cap) == Ok((v, at + next - pos))
    decreases k
  {
    var next := ReadLeb(b, pos, k, cap).value.1;
    CopiedByte(b, pos, next, c, at);
    if b[pos] >= 128 {
      CopiedSplit(b, pos, pos + 1, next, c, at);
      LebLocal(b, pos + 1, c, at + 1, k - 1, cap);
    }
  }

  lemma VarIntLocal(b: Bytes, pos: nat, c: Bytes, at: nat)
    requires DecodeVarInt(b, pos).Ok? && Copied(b, pos, DecodeVarInt(b, pos).value.1, c, at)
    ensures var (v, next) := DecodeVarInt(b, pos).value; DecodeVarInt(c, at) == Ok((v, at + next - pos))
  {
    LebLocal(b, pos, c, at, 5, 16);
  }

  // ----- The loops -----

  /** `encode_varint`: appends the groups of `value` to `buf`. */
  method PutVarInt(value: i32, buf: Bytes) returns (out: Bytes)
    ensures out == buf + EncodeVarInt(value)
    ensures buf == [] ==> out == EncodeVarInt(value)
  {
    out := PutGroups(value % TWO32, buf);
  }

  /** `encode_varlong`. */
  method PutVarLong(value: i64, buf: Bytes) returns (out: Bytes)
    ensures out == buf + EncodeVarLong(value)
  {
    out := PutGroups(value % TWO64, buf);
  }

  /** The loop both encoders run on the unsigned value. */
  method PutGroups(value: nat, buf: Bytes) returns (out: Bytes)
    ensures out == buf + Leb(value)
  {
    var temp := value;
    out := buf;
    while temp >= 128
      invariant 0 <= temp
      invariant out + Leb(temp) == buf + Leb(value)
    {
      LebUnfold(temp);
      assert out + Leb(temp) == (out + [temp % 128 + 128]) + Leb(temp / 128);
      out := out + [temp % 128 + 128];
      temp := temp / 128;
    }
    out := out + [temp];
  }

  /** What the groups still unread contribute once `value` has been collected below `weight`. */
  ghost function Resume(value: nat, weight: nat, b: Bytes, pos: nat, left: nat, cap: nat): Result<(nat, nat)>
    requires 1 <= left && 1 <= cap <= 128
  {
    var (v, next) :- ReadLeb(b, pos, left, cap);
    Ok((value + weight * v, next))
  }

  lemma ResumeStep(value: nat, weight: nat, b: Bytes, pos: nat, left: nat, cap: nat)
    requires 2 <= left && 1 <= cap <= 128 && pos < |b| && b[pos] >= 128
    ensures Resume(value, weight, b, pos, left, cap)
         == Resume(value + weight * (b[pos] - 128), weight * 128, b, pos + 1, left - 1, cap)
  {
    var inner := ReadLeb(b, pos + 1, left - 1, cap);
    if inner.Ok? {
      assert weight * (b[pos] - 128 + 128 * inner.value.0) == weight * (b[pos] - 128) + weight * 128 * inner.value.0;
    }
  }

  lemma ResumeEnds(value: nat, weight: nat, b: Bytes, pos: nat, left: nat, cap: nat)
    requires 1 <= left && 1 <= cap <= 128
    ensures pos >= |b| ==> Resume(value, weight, b, pos, left, cap) == Err(UnexpectedEof)
    ensures pos < |b| && left == 1 && b[pos] >= cap ==> Resume(value, weight, b, pos, left, cap) == Err(VarIntOverflow)
    ensures pos < |b| && !(left == 1 && b[pos] >= cap) && b[pos] < 128 ==>
              Resume(value, weight, b, pos, left, cap) == Ok((value + weight * b[pos], pos + 1))
  {}

  lemma ResumeStart(b: Bytes, pos: nat, left: nat, cap: nat)
    requires 1 <= left && 1 <= cap <= 128
    ensures Resume(0, 1, b, pos, left, cap) == ReadLeb(b, pos, left, cap)
  {}

  /** The loop both decoders run; `weight` is `1 << position`. */
  method ReadGroups(b: Bytes, start: nat, maxBytes: nat, cap: nat) returns (r: Result<(nat, nat)>)
    requires 2 <= maxBytes && 1 <= cap <= 128
    ensures r == ReadLeb(b, start, maxBytes, cap)
  {
    hide Resume, ReadLeb;
    ResumeStart(b, start, maxBytes, cap);
    var value: nat, weight: nat, pos: nat := 0, 1, start;
    var bytesRead := 0;
    while true
      invariant 0 <= bytesRead < maxBytes
      invariant Resume(value, weight, b, pos, maxBytes - bytesRead, cap) == ReadLeb(b, start, maxBytes, cap)
      decreases maxBytes - bytesRead
    {
      ResumeEnds(value, weight, b, pos, maxBytes - bytesRead, cap);
      if pos >= |b| {
        return Err(UnexpectedEof);
      }
      var current := b[pos];
      bytesRead := bytesRead + 1;
      if bytesRead == maxBytes && current >= cap {
        return Err(VarIntOverflow);
      }
      if current < 128 {
        return Ok((value + weight * current, pos + 1));
      }
      if bytesRead >= maxBytes {
        return Err(VarIntOverflow);
      }
      ResumeStep(value, weight, b, pos, maxBytes - bytesRead + 1, cap);
      value, weight, pos := value + weight * (current % 128), weight * 128, pos + 1;
    }
  }

  /** `decode_varint`. */
  method TakeVarInt(b: Bytes, pos: nat) returns (r: Result<(i32, nat)>)
    ensures r == DecodeVarInt(b, pos)
  {
    var g := ReadGroups(b, pos, 5, 16);
    if g.Err? {
      return Err(g.error);
    }
    return Ok((AsI32(g.value.0), g.value.1));
  }

  /** `decode_varlong`. */
  method TakeVarLong(b: Bytes, pos: nat) returns (r: Result<(i64, nat)>)
    ensures r == DecodeVarLong(b, pos)
  {
    var g := ReadGroups(b, pos, 10, 2);
    if g.Err? {
      return Err(g.error);
    }
    return Ok((AsI64(g.value.0), g.value.1));
  }
}
