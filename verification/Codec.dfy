/** Length-prefixed, optionally compressed frames, and reading them back from a byte stream. */
module Codec {
  import opened Wire
  import opened VarInt

  const CHUNK := 64 * 1024

  /** `DEFAULT_MAX_PACKET_SIZE`. */
  const MAX_PACKET := 2097152

  /** zlib as a pair of functions; `inflate(c, n)` reads at most `n` bytes of output. */
  datatype Zlib = Zlib(deflate: Bytes -> Bytes, inflate: (Bytes, nat) -> Result<Bytes>) {

    /** The one law used: inflating what was deflated gives it back, up to the read limit. */
    ghost predicate Lawful() {
      forall x: Bytes, n: nat :: inflate(deflate(x), n) == Ok(x[..Min(n, |x|)])
    }
  }

  // ----- Specification -----

  function Uncompressed(p: RawPacket): Bytes { EncodeVarInt(p.id) + p.payload }

  function UncompressedSize(p: RawPacket): nat { VarIntSize(p.id) + |p.payload| }

  /** What follows the length prefix of a frame. */
  function Body(z: Zlib, p: RawPacket, threshold: Option<nat>): Bytes
  {
    match threshold
    case None => Uncompressed(p)
    case Some(t) =>
      if UncompressedSize(p) < t then EncodeVarInt(0) + Uncompressed(p)
      else EncodeVarInt(AsI32(UncompressedSize(p))) + z.deflate(Uncompressed(p))
  }

  /** A whole frame; the length is cast to an i32 without a check. */
  function Frame(z: Zlib, p: RawPacket, threshold: Option<nat>): Bytes
  {
    EncodeVarInt(AsI32(|Body(z, p, threshold)|)) + Body(z, p, threshold)
  }

  function DecodePacket(b: Bytes): Result<RawPacket>
  {
    var (id, next) :- DecodeVarInt(b, 0);
    Ok(RawPacket(id, b[next..]))
  }

  /** The packet in a frame body. */
  function DecodeBody(z: Zlib, body: Bytes, maxSize: nat, threshold: Option<nat>): Result<RawPacket>
  {
    match threshold
    case None => DecodePacket(body)
    case Some(t) =>
      var (dataLength, next) :- DecodeVarInt(body, 0);
      if dataLength < 0 || dataLength > maxSize then Err(PacketTooLarge)
      else if 0 < dataLength < t then Err(InvalidData)
      else if dataLength == 0 then DecodePacket(body[next..])
      else
        var raw :- z.inflate(body[next..], dataLength + 1);
        if |raw| != dataLength then Err(InvalidData) else DecodePacket(raw)
  }

  /** One packet off the front of a stream, with the bytes that follow its frame. */
  function ReadFrame(z: Zlib, b: Bytes, maxSize: nat, threshold: Option<nat>): (r: Result<(RawPacket, Bytes)>)
    ensures r.Ok? ==> |r.value.1| < |b|
  {
    var (length, start) :- DecodeVarInt(b, 0);
    if length < 0 || length > maxSize then Err(PacketTooLarge)
    else if length == 0 then Err(UnexpectedEof)
    else if |b| - start < length then Err(UnexpectedEof)
    else
      var p :- DecodeBody(z, b[start..start + length], maxSize, threshold);
      Ok((p, b[start + length..]))
  }

  /** Frames written back to back. */
  function FrameAll(z: Zlib, ps: seq<RawPacket>, threshold: Option<nat>): Bytes
  {
    if ps == [] then [] else FrameAll(z, ps[..|ps| - 1], threshold) + Frame(z, ps[|ps| - 1], threshold)
  }

  /** Reads packets until the stream is exhausted. */
  function ReadAll(z: Zlib, b: Bytes, maxSize: nat, threshold: Option<nat>): Result<seq<RawPacket>>
    decreases |b|
  {
    if b == [] then Ok([])
    else
      var (p, rest) :- ReadFrame(z, b, maxSize, threshold);
      var ps :- ReadAll(z, rest, maxSize, threshold);
      Ok([p] + ps)
  }

  /** The two length fields of a frame survive the cast and stay within the reader's limit. */
  predicate Fits(z: Zlib, p: RawPacket, maxSize: nat, threshold: Option<nat>)
  {
    && Castable(z, p, threshold)
    && |Body(z, p, threshold)| <= maxSize
    && (threshold.Some? && UncompressedSize(p) >= threshold.value ==> UncompressedSize(p) <= maxSize)
  }

  /** Both length fields survive the cast to an i32. */
  predicate Castable(z: Zlib, p: RawPacket, threshold: Option<nat>)
  {
    UncompressedSize(p) < 0x8000_0000 && |Body(z, p, threshold)| < 0x8000_0000
  }

  // ----- Laws -----

  lemma Head(v: i32, rest: Bytes)
    ensures var b := EncodeVarInt(v) + rest; var n := |EncodeVarInt(v)|;
            DecodeVarInt(b, 0) == Ok((v, n)) && b[n..] == rest
  {
    AtSelf(EncodeVarInt(v), rest);
    VarIntRoundTrip(EncodeVarInt(v) + rest, 0, v);
  }

  lemma DecodeUncompressed(p: RawPacket)
    ensures DecodePacket(Uncompressed(p)) == Ok(p)
    ensures |Uncompressed(p)| == UncompressedSize(p)
  {
    Head(p.id, p.payload);
    SizeIsEncodedLength(p.id);
  }

  lemma BodyRoundTrip(z: Zlib, p: RawPacket, maxSize: nat, threshold: Option<nat>)
    requires z.Lawful() && Fits(z, p, maxSize, threshold)
    ensures DecodeBody(z, Body(z, p, threshold), maxSize, threshold) == Ok(p)
  {
    DecodeUncompressed(p);
    if threshold.Some? {
      var raw := Uncompressed(p);
      if UncompressedSize(p) < threshold.value {
        Head(0, raw);
      } else {
        Head(|raw|, z.deflate(raw));
        assert raw[..|raw|] == raw;
        assert z.inflate(z.deflate(raw), |raw| + 1) == Ok(raw[..Min(|raw| + 1, |raw|)]);
      }
    }
  }

  /**
   * For every packet and every limit: a frame is read back exactly, whatever follows it, if and only if
   * its lengths survive the cast to an i32 and meet the reader's limit; a frame whose lengths survive
   * but exceed the limit is refused as too large.
   */
  lemma FrameReadsBackIffItFits(z: Zlib, p: RawPacket, suffix: Bytes, maxSize: nat, threshold: Option<nat>)
    requires z.Lawful()
    ensures var r := ReadFrame(z, Frame(z, p, threshold) + suffix, maxSize, threshold);
            && (r == Ok((p, suffix)) <==> Fits(z, p, maxSize, threshold))
            && (Castable(z, p, threshold) && !Fits(z, p, maxSize, threshold) ==> r == Err(PacketTooLarge))
  {
    hide ReadFrame, Frame, Body;
    if Castable(z, p, threshold) {
      CastableFrameReads(z, p, suffix, maxSize, threshold);
    } else {
      WrappedFrameIsLost(z, p, suffix, maxSize, threshold);
    }
  }

  /** Where the frame body lies once the length prefix is read. */
  lemma FrameLayout(z: Zlib, p: RawPacket, suffix: Bytes, threshold: Option<nat>)
    ensures var body := Body(z, p, threshold); var wire := Frame(z, p, threshold) + suffix;
            var start := |EncodeVarInt(AsI32(|body|))|;
            && DecodeVarInt(wire, 0) == Ok((AsI32(|body|), start)) && |wire| == start + |body| + |suffix|
            && wire[start..start + |body|] == body && wire[start + |body|..] == suffix
  {
    hide Body, EncodeVarInt, DecodeVarInt;
    var body := Body(z, p, threshold);
    assert Frame(z, p, threshold) + suffix == EncodeVarInt(AsI32(|body|)) + (body + suffix);
    Head(AsI32(|body|), body + suffix);
  }

  /** A length that does not survive the cast: the packet is not read back, whatever the limit. */
  lemma WrappedFrameIsLost(z: Zlib, p: RawPacket, suffix: Bytes, maxSize: nat, threshold: Option<nat>)
    requires z.Lawful() && !Castable(z, p, threshold)
    ensures ReadFrame(z, Frame(z, p, threshold) + suffix, maxSize, threshold) != Ok((p, suffix))
  {
    hide Frame, EncodeVarInt, DecodeVarInt;
    FrameLayout(z, p, suffix, threshold);
    if |Body(z, p, threshold)| < 0x8000_0000 {
      WrappedBodyIsLost(z, p, maxSize, threshold);
    }
  }

  lemma WrappedBodyIsLost(z: Zlib, p: RawPacket, maxSize: nat, threshold: Option<nat>)
    requires z.Lawful() && UncompressedSize(p) >= 0x8000_0000 && |Body(z, p, threshold)| < 0x8000_0000
    ensures DecodeBody(z, Body(z, p, threshold), maxSize, threshold) != Ok(p)
  {
    hide EncodeVarInt, DecodeVarInt, VarIntSize;
    DecodeUncompressed(p);
    var raw := Uncompressed(p);
    var size: int := AsI32(|raw|);
    Head(size, z.deflate(raw));
    assert VarIntSize(p.id) <= 5 by { SizeAtMostFive(p.id); }
    assert size >= 0 ==> z.inflate(z.deflate(raw), size + 1) == Ok(raw[..Min(size + 1, |raw|)]);
  }

  lemma SizeAtMostFive(v: i32)
    ensures VarIntSize(v) <= 5
  {}

  lemma CastableFrameReads(z: Zlib, p: RawPacket, suffix: Bytes, maxSize: nat, threshold: Option<nat>)
    requires z.Lawful() && Castable(z, p, threshold)
    ensures var r := ReadFrame(z, Frame(z, p, threshold) + suffix, maxSize, threshold);
            && (r == Ok((p, suffix)) <==> Fits(z, p, maxSize, threshold))
            && (!Fits(z, p, maxSize, threshold) ==> r == Err(PacketTooLarge))
  {
    hide Frame, EncodeVarInt, DecodeVarInt;
    FrameLayout(z, p, suffix, threshold);
    if Fits(z, p, maxSize, threshold) {
      BodyRoundTrip(z, p, maxSize, threshold);
    } else if |Body(z, p, threshold)| <= maxSize {
      Head(UncompressedSize(p), z.deflate(Uncompressed(p)));
    }
  }

  // ----- What a frame looks like -----

  /**
   * The frame of `p`: a length, then id and payload as they are, or at threshold `t` a data length in front
   * of them: zero and the plain bytes below the threshold, their number and the deflated bytes from it on.
   */
  ghost predicate FramedAs(z: Zlib, frame: Bytes, p: RawPacket, threshold: Option<nat>)
  {
    var length := DecodeVarInt(frame, 0);
    length.Ok? &&
    var body := frame[length.value.1..];
    var raw := EncodeVarInt(p.id) + p.payload;
    && length.value.0 == AsI32(|body|)
    && (threshold.None? ==> body == raw)
    && (threshold.Some? ==>
          var data := DecodeVarInt(body, 0);
          && data.Ok?
          && (|raw| < threshold.value ==> data.value.0 == 0 && body[data.value.1..] == raw)
          && (|raw| >= threshold.value ==> data.value.0 == AsI32(|raw|) && body[data.value.1..] == z.deflate(raw)))
  }

  lemma FrameIsFramed(z: Zlib, p: RawPacket, threshold: Option<nat>)
    ensures FramedAs(z, Frame(z, p, threshold), p, threshold)
  {
    hide EncodeVarInt, DecodeVarInt;
    var body := Body(z, p, threshold);
    Head(AsI32(|body|), body);
    DecodeUncompressed(p);
    if threshold.Some? {
      Head(0, Uncompressed(p));
      Head(AsI32(UncompressedSize(p)), z.deflate(Uncompressed(p)));
    }
  }

  /** A packet whose size survives the cast goes out uncompressed if and only if it is below the threshold. */
  lemma UncompressedIffBelowThreshold(z: Zlib, p: RawPacket, t: nat)
    requires |EncodeVarInt(p.id) + p.payload| < 0x8000_0000
    ensures var frame := Frame(z, p, Some(t)); var length := DecodeVarInt(frame, 0);
            && length.Ok? && DecodeVarInt(frame[length.value.1..], 0).Ok?
            && (DecodeVarInt(frame[length.value.1..], 0).value.0 == 0 <==> |EncodeVarInt(p.id) + p.payload| < t)
  {
    hide EncodeVarInt, DecodeVarInt, Frame;
    FrameIsFramed(z, p, Some(t));
  }

  /**
   * What the reader makes of any frame at threshold `t`: it takes a data length of zero for plain bytes,
   * inflates a data length between the threshold and the limit if exactly that many bytes come out, and
   * refuses every other one.
   */
  lemma ReaderAcceptsIff(z: Zlib, body: Bytes, suffix: Bytes, maxSize: nat, t: nat, q: RawPacket)
    requires 0 < |body| <= maxSize && |body| < 0x8000_0000 && DecodeVarInt(body, 0).Ok?
    ensures var (data, n) := DecodeVarInt(body, 0).value;
            var r := ReadFrame(z, EncodeVarInt(|body|) + (body + suffix), maxSize, Some(t));
            && (r == Ok((q, suffix)) <==>
                  || (data == 0 && DecodePacket(body[n..]) == Ok(q))
                  || (0 < data && t <= data <= maxSize
                      && var raw := z.inflate(body[n..], data as int + 1); raw.Ok? && |raw.value| == data && DecodePacket(raw.value) == Ok(q)))
            && (data < 0 || data > maxSize ==> r == Err(PacketTooLarge))
            && (0 < data < t && data <= maxSize ==> r == Err(InvalidData))
  {
    hide EncodeVarInt, DecodeVarInt, DecodePacket;
    Head(|body|, body + suffix);
    var wire, start := EncodeVarInt(|body|) + (body + suffix), |EncodeVarInt(|body|)|;
    assert wire[start..start + |body|] == body && wire[start + |body|..] == suffix;
  }

  predicate AllFit(z: Zlib, ps: seq<RawPacket>, maxSize: nat, threshold: Option<nat>)
  {
    forall p <- ps :: Fits(z, p, maxSize, threshold)
  }

  lemma {:induction false} FrameAllCons(z: Zlib, p: RawPacket, ps: seq<RawPacket>, threshold: Option<nat>)
    ensures FrameAll(z, [p] + ps, threshold) == Frame(z, p, threshold) + FrameAll(z, ps, threshold)
  {
    hide Frame;
    if ps == [] {
      assert [p] + ps == [p];
      assert FrameAll(z, [p][..0], threshold) == [];
    } else {
      var n := |ps| - 1;
      assert ([p] + ps)[..n + 1] == [p] + ps[..n];
      FrameAllCons(z, p, ps[..n], threshold);
      Associative(Frame(z, p, threshold), FrameAll(z, ps[..n], threshold), Frame(z, ps[n], threshold));
    }
  }

  lemma {:induction false} FrameAllConcat(z: Zlib, ps: seq<RawPacket>, qs: seq<RawPacket>, threshold: Option<nat>)
    ensures FrameAll(z, ps + qs, threshold) == FrameAll(z, ps, threshold) + FrameAll(z, qs, threshold)
    decreases |qs|
  {
    hide Frame;
    if qs == [] {
      assert ps + qs == ps;
    } else {
      var n := |qs| - 1;
      assert (ps + qs)[..|ps| + n] == ps + qs[..n];
      FrameAllConcat(z, ps, qs[..n], threshold);
      Associative(FrameAll(z, ps, threshold), FrameAll(z, qs[..n], threshold), Frame(z, qs[n], threshold));
    }
  }

  /** Any list of packets within the limits, framed back to back, reads back exactly and in order. */
  lemma {:induction false} StreamRoundTrip(z: Zlib, ps: seq<RawPacket>, maxSize: nat, threshold: Option<nat>)
    requires z.Lawful() && AllFit(z, ps, maxSize, threshold)
    ensures ReadAll(z, FrameAll(z, ps, threshold), maxSize, threshold) == Ok(ps)
  {
    if ps != [] {
      var p, rest := ps[0], ps[1..];
      assert ps == [p] + rest;
      FrameAllCons(z, p, rest, threshold);
      FrameReadsBackIffItFits(z, p, FrameAll(z, rest, threshold), maxSize, threshold);
      StreamRoundTrip(z, rest, maxSize, threshold);
    }
  }

  // ----- The code -----

  /** `encode_packet_with_compression`. */
  method EncodePacket(z: Zlib, p: RawPacket, threshold: Option<nat>) returns (buf: Bytes)
    ensures buf == Frame(z, p, threshold) && FramedAs(z, buf, p, threshold)
  {
    FrameIsFramed(z, p, threshold);
    DecodeUncompressed(p);
    var uncompressedLen := VarIntSize(p.id) + |p.payload|;
    if threshold.None? {
      buf := PutVarInt(AsI32(uncompressedLen), []);
      buf := PutRaw(p, buf);
    } else if uncompressedLen < threshold.value {
      SizeIsEncodedLength(0);
      buf := PutVarInt(AsI32(1 + uncompressedLen), []);
      ghost var prefix := buf;
      buf := PutVarInt(0, buf);
      buf := PutRaw(p, buf);
      Associative(prefix, EncodeVarInt(0), Uncompressed(p));
    } else {
      var raw := PutRaw(p, []);
      var compressed := z.deflate(raw);
      var dataLength := AsI32(uncompressedLen);
      SizeIsEncodedLength(dataLength);
      buf := PutVarInt(AsI32(VarIntSize(dataLength) + |compressed|), []);
      ghost var prefix := buf;
      buf := PutVarInt(dataLength, buf);
      buf := buf + compressed;
      Associative(prefix, EncodeVarInt(dataLength), compressed);
    }
  }

  /** Id and payload, appended to a buffer. */
  method PutRaw(p: RawPacket, buf: Bytes) returns (out: Bytes)
    ensures out == buf + Uncompressed(p)
    ensures buf == [] ==> out == Uncompressed(p)
  {
    out := PutVarInt(p.id, buf);
    out := out + p.payload;
    Associative(buf, EncodeVarInt(p.id), p.payload);
  }

  lemma Slices(b: Bytes, start: nat, n: nat)
    requires start + n <= |b|
    ensures b[start..][..n] == b[start..start + n] && b[start..][n..] == b[start + n..]
  {}

  /** An asynchronous byte source seen as the bytes it will still deliver before its end. */
  class ByteSource {
    var pending: Bytes

    constructor (data: Bytes)
      ensures pending == data
    {
      pending := data;
    }

    /** `read_varint`: the loop of `decode_varint`, fed from the source. */
    method ReadVarInt() returns (r: Result<i32>)
      modifies this
      ensures var d := DecodeVarInt(old(pending), 0);
              if d.Ok? then r == Ok(d.value.0) && pending == old(pending)[d.value.1..] else r == Err(d.error)
    {
      var g := TakeVarInt(pending, 0);
      if g.Err? {
        pending := [];
        return Err(g.error);
      }
      pending := pending[g.value.1..];
      return Ok(g.value.0);
    }

    /** `read_exact` into a fresh buffer. */
    method ReadExact(n: nat) returns (r: Result<Bytes>)
      modifies this
      ensures r.Ok? <==> n <= |old(pending)|
      ensures r.Ok? ==> r.value == old(pending)[..n] && pending == old(pending)[n..]
      ensures r.Err? ==> r.error == UnexpectedEof
    {
      if |pending| < n {
        pending := [];
        return Err(UnexpectedEof);
      }
      r := Ok(pending[..n]);
      pending := pending[n..];
    }

    /** The body loop: grows the buffer by at most 64 KiB at a time. */
    method ReadBody(length: nat) returns (r: Result<Bytes>)
      modifies this
      ensures r.Ok? <==> length <= |old(pending)|
      ensures r.Ok? ==> r.value == old(pending)[..length] && pending == old(pending)[length..]
      ensures r.Err? ==> r.error == UnexpectedEof
    {
      var body: Bytes := [];
      var remaining := length;
      while remaining > 0
        invariant 0 <= remaining <= length
        invariant length - remaining <= |old(pending)|
        invariant body == old(pending)[..length - remaining]
        invariant pending == old(pending)[length - remaining..]
      {
        var chunkSize := Min(remaining, CHUNK);
        var chunk := ReadExact(chunkSize);
        if chunk.Err? {
          return Err(UnexpectedEof);
        }
        body := body + chunk.value;
        remaining := remaining - chunkSize;
      }
      return Ok(body);
    }

    /** `read_packet_with_compression`. */
    method ReadPacket(z: Zlib, maxSize: nat, threshold: Option<nat>) returns (r: Result<RawPacket>)
      modifies this
      ensures var d := ReadFrame(z, old(pending), maxSize, threshold);
              if d.Ok? then r == Ok(d.value.0) && pending == d.value.1 else r == Err(d.error)
    {
      hide DecodeVarInt, DecodeBody;
      var lengthRead := ReadVarInt();
      if lengthRead.Err? {
        return Err(lengthRead.error);
      }
      var length := lengthRead.value;
      if length < 0 || length > maxSize {
        return Err(PacketTooLarge);
      }
      if length == 0 {
        return Err(UnexpectedEof);
      }
      var body := ReadBody(length);
      if body.Err? {
        return Err(UnexpectedEof);
      }
      Slices(old(pending), DecodeVarInt(old(pending), 0).value.1, length);
      r := DecodeBody(z, body.value, maxSize, threshold);
    }
  }
}
