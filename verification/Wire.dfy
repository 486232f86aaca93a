/** Bytes, machine integers, results and UTF-8 text: the vocabulary every codec shares. */
module Wire {

  type byte = b: int | 0 <= b < 256

  type Bytes = seq<byte>

  type i32 = v: int | -0x8000_0000 <= v < 0x8000_0000

  type i64 = v: int | -0x8000_0000_0000_0000 <= v < 0x8000_0000_0000_0000

  datatype Option<+T> = None | Some(value: T)

  datatype Error =
    | UnexpectedEof
    | VarIntOverflow
    | PacketTooLarge
    | InvalidPacketId(id: int)
    | InvalidData
    | Io
    | BackendConnectionFailed

  /** A failure-compatible result; decoders return the value together with the bytes left over. */
  datatype Result<+T> = Ok(value: T) | Err(error: Error) {
    predicate IsFailure() { Err? }

    function PropagateFailure<U>(): Result<U>
      requires Err?
    {
      Err(error)
    }

    function Extract(): T
      requires Ok?
    {
      value
    }
  }

  /** An unparsed packet: its id and its raw payload. */
  datatype RawPacket = RawPacket(id: i32, payload: Bytes)

  /** `n as i32`: truncation to 32 bits, read back as two's complement. */
  function AsI32(n: int): (v: i32)
    ensures -0x8000_0000 <= n < 0x8000_0000 ==> v == n
  {
    var u := n % 0x1_0000_0000;
    if u < 0x8000_0000 then u else u - 0x1_0000_0000
  }

  /** `n as i64`: truncation to 64 bits, read back as two's complement. */
  function AsI64(n: int): (v: i64)
    ensures -0x8000_0000_0000_0000 <= n < 0x8000_0000_0000_0000 ==> v == n
  {
    var u := n % 0x1_0000_0000_0000_0000;
    if u < 0x8000_0000_0000_0000 then u else u - 0x1_0000_0000_0000_0000
  }

  function Min(a: int, b: int): int { if a <= b then a else b }

  // ----- Cursors: a buffer and a position in it -----

  /** The bytes `x` lie in `b` at `pos`. */
  predicate At(b: Bytes, pos: nat, x: Bytes) { pos + |x| <= |b| && b[pos..pos + |x|] == x }

  /** The bytes of `b` from `from` to `to` also lie in `c` at `pos`. */
  predicate Copied(b: Bytes, from: nat, to: nat, c: Bytes, pos: nat)
  {
    from <= to <= |b| && At(c, pos, b[from..to])
  }

  lemma AtSplit(b: Bytes, pos: nat, x: Bytes, y: Bytes)
    ensures At(b, pos, x + y) <==> At(b, pos, x) && At(b, pos + |x|, y)
  {
    if pos + |x + y| <= |b| {
      var whole := b[pos..pos + |x + y|];
      assert whole[..|x|] == b[pos..pos + |x|] && whole[|x|..] == b[pos + |x|..pos + |x| + |y|];
      assert (x + y)[..|x|] == x && (x + y)[|x|..] == y && whole == whole[..|x|] + whole[|x|..];
    }
  }

  lemma AtSelf(x: Bytes, suffix: Bytes)
    ensures At(x + suffix, 0, x)
  {}

  /** A buffer made of four pieces. */
  lemma AtPieces(x0: Bytes, x1: Bytes, x2: Bytes, x3: Bytes)
    ensures var b := x0 + (x1 + (x2 + x3));
            At(b, 0, x0) && At(b, |x0|, x1) && At(b, |x0| + |x1|, x2) && At(b, |x0| + |x1| + |x2|, x3)
  {
    hide At;
    var b := x0 + (x1 + (x2 + x3));
    assert b + [] == b;
    AtSelf(b, []);
    AtSplit(b, 0, x0, x1 + (x2 + x3));
    AtSplit(b, |x0|, x1, x2 + x3);
    AtSplit(b, |x0| + |x1|, x2, x3);
  }

  lemma Associative(a: Bytes, b: Bytes, c: Bytes)
    ensures (a + b) + c == a + (b + c)
  {}

  lemma Associative4(a: Bytes, b: Bytes, c: Bytes, d: Bytes)
    ensures ((a + b) + c) + d == a + (b + (c + d))
  {}

  lemma Associative5(a: Bytes, b: Bytes, c: Bytes, d: Bytes, e: Bytes)
    ensures (((a + b) + c) + d) + e == a + (b + (c + (d + e)))
  {}

  lemma AtByte(b: Bytes, pos: nat, x: Bytes, i: nat)
    requires At(b, pos, x) && i < |x|
    ensures pos + i < |b| && b[pos + i] == x[i]
  {
    assert b[pos..pos + |x|][i] == b[pos + i];
  }

  lemma CopiedSplit(b: Bytes, from: nat, mid: nat, to: nat, c: Bytes, pos: nat)
    requires from <= mid <= to && Copied(b, from, to, c, pos)
    ensures Copied(b, from, mid, c, pos) && Copied(b, mid, to, c, pos + mid - from)
  {
    assert b[from..to] == b[from..mid] + b[mid..to];
    AtSplit(c, pos, b[from..mid], b[mid..to]);
  }

  lemma CopiedByte(b: Bytes, from: nat, to: nat, c: Bytes, pos: nat)
    requires from < to && Copied(b, from, to, c, pos)
    ensures c[pos] == b[from]
  {
    AtByte(c, pos, b[from..to], 0);
  }

  predicate IsContinuation(b: byte) { 0x80 <= b < 0xC0 }

  /** What `std::str::from_utf8` accepts: the well-formed sequences of section 4 of RFC 3629. */
  predicate ValidUtf8(s: Bytes)
    decreases |s|
  {
    || |s| == 0
    || (s[0] < 0x80 && ValidUtf8(s[1..]))
    || (|s| >= 2 && 0xC2 <= s[0] < 0xE0 && IsContinuation(s[1]) && ValidUtf8(s[2..]))
    || (|s| >= 3 && 0xE0 <= s[0] < 0xF0 && IsContinuation(s[1]) && IsContinuation(s[2])
        && (s[0] == 0xE0 ==> s[1] >= 0xA0) && (s[0] == 0xED ==> s[1] < 0xA0) && ValidUtf8(s[3..]))
    || (|s| >= 4 && 0xF0 <= s[0] < 0xF5 && IsContinuation(s[1]) && IsContinuation(s[2]) && IsContinuation(s[3])
        && (s[0] == 0xF0 ==> s[1] >= 0x90) && (s[0] == 0xF4 ==> s[1] < 0x90) && ValidUtf8(s[4..]))
  }
}
