/** Cutting the spawn record out of a Login (Play) packet to make a Respawn packet. */
module Respawn {
  import opened Wire
  import opened VarInt
  import opened Fields

  // ----- Packet ids -----

  /** `RespawnPacket::packet_id_for_version`. */
  function RespawnId(version: int): i32
  {
    if version >= 776 then 0x52
    else if version >= 768 then 0x4C
    else if version >= 766 then 0x47
    else if version >= 764 then 0x45
    else if version >= 762 then 0x43
    else if version == 761 then 0x3F
    else if version >= 759 then 0x3E
    else if version >= 755 then 0x3D
    else if version >= 751 then 0x39
    else if version >= 340 then 0x35
    else 0x45
  }

  predicate IsValidRespawnId(id: int)
  {
    id in [0x52, 0x51, 0x4C, 0x4A, 0x47, 0x45, 0x43, 0x3F, 0x3E, 0x3D, 0x39, 0x35]
  }

  // ----- Records -----

  type Place = Option<(Bytes, Bytes)>

  /** The common spawn record of protocols from 766 on, as it lies on the wire. */
  datatype SpawnInfo = SpawnInfo(
    dimension: i32,
    name: Bytes,
    seed: Bytes,
    modes: Bytes,            // game mode, previous game mode, debug flag, flat flag
    death: Place,
    portalCooldown: i32,
    seaLevel: Option<i32>)

  datatype RespawnPacket = RespawnPacket(
    dimensionType: Bytes,
    dimensionName: Bytes,
    seed: i64,
    gamemode: byte,
    previousGamemode: int,
    isDebug: bool,
    isFlat: bool,
    dataKept: byte)

  /** `u8 as i8`. */
  function AsI8(b: byte): (v: int)
    ensures -128 <= v < 128
  {
    if b < 128 then b else (b as int) - 256
  }

  /** `put_i8`. */
  function PutI8(v: int): byte { v % 256 }

  function PutBool(b: bool): byte { if b then 1 else 0 }

  // ----- Readers -----

  /** Skips `count` length-prefixed strings. */
  function SkipStrings(b: Bytes, pos: nat, count: nat): (r: Result<nat>)
    ensures r.Ok? ==> pos <= r.value
    decreases count
  {
    if count == 0 then Ok(pos)
    else
      var (_, next) :- TakeChunk(b, pos);
      SkipStrings(b, next, count - 1)
  }

  /** Skips the head of Login (Play): entity, hardcore, dimension names, limits and three flags. */
  function SkipLoginHead(b: Bytes): (r: Result<nat>)
    ensures r.Ok? ==> r.value <= |b|
  {
    hide DecodeVarInt, SkipStrings;
    var (_, p1) :- TakeBytes(b, 0, 5);
    var (count, p2) :- DecodeVarInt(b, p1);
    if !(0 <= count <= 1024) then Err(InvalidData)
    else
      var p3 :- SkipStrings(b, p2, count);
      var (_, p4) :- DecodeVarInt(b, p3);
      var (_, p5) :- DecodeVarInt(b, p4);
      var (_, p6) :- DecodeVarInt(b, p5);
      var (_, p7) :- TakeBytes(b, p6, 3);
      Ok(p7)
  }

  /** The optional place of death. */
  function ReadDeath(b: Bytes, pos: nat): (r: Result<(Place, nat)>)
    ensures r.Ok? ==> pos < r.value.1 <= |b|
  {
    hide TakeChunk;
    var (flag, p1) :- TakeByte(b, pos);
    if flag == 0 then Ok((None, p1))
    else
      var (dimension, p2) :- TakeChunk(b, p1);
      var (position, p3) :- TakeBytes(b, p2, 8);
      Ok((Some((dimension, position)), p3))
  }

  function ReadSeaLevel(b: Bytes, pos: nat, version: int): (r: Result<(Option<i32>, nat)>)
    ensures r.Ok? ==> pos <= r.value.1
  {
    if version < 768 then Ok((None, pos))
    else
      var (level, p1) :- DecodeVarInt(b, pos);
      Ok((Some(level), p1))
  }

  /** Dimension index and name; `strict` readers insist on UTF-8. */
  function ReadDimension(b: Bytes, pos: nat, strict: bool): (r: Result<(i32, Bytes, nat)>)
    ensures r.Ok? ==> pos < r.value.2 <= |b|
  {
    hide DecodeVarInt, TakeChunk;
    var (dimension, p1) :- DecodeVarInt(b, pos);
    var (name, p2) :- if strict then TakeString(b, p1) else TakeChunk(b, p1);
    Ok((dimension, name, p2))
  }

  /** Place of death, portal cooldown and sea level: the fields after the game modes. */
  function ReadTrailer(b: Bytes, pos: nat, version: int): (r: Result<(Place, i32, Option<i32>, nat)>)
    ensures r.Ok? ==> pos < r.value.3 <= |b|
  {
    hide DecodeVarInt, ReadDeath;
    var (death, p1) :- ReadDeath(b, pos);
    var (cooldown, p2) :- DecodeVarInt(b, p1);
    var (seaLevel, p3) :- ReadSeaLevel(b, p2, version);
    Ok((death, cooldown, seaLevel, p3))
  }

  /** The spawn record; everything after it is left alone. */
  function ReadSpawnInfo(b: Bytes, pos: nat, version: int, strict: bool): (r: Result<(SpawnInfo, nat)>)
    ensures r.Ok? ==> pos < r.value.1 <= |b| && |r.value.0.seed| == 8 && |r.value.0.modes| == 4
  {
    hide ReadDimension, ReadTrailer;
    var (dimension, name, p1) :- ReadDimension(b, pos, strict);
    var (seed, p2) :- TakeBytes(b, p1, 8);
    var (modes, p3) :- TakeBytes(b, p2, 4);
    var (death, cooldown, seaLevel, p4) :- ReadTrailer(b, p3, version);
    Ok((SpawnInfo(dimension, name, seed, modes, death, cooldown, seaLevel), p4))
  }

  /** The spawn record of protocols 764 and 765, as a packet that keeps `kept`. */
  function ReadLegacySpawnInfo(b: Bytes, pos: nat, kept: byte): (r: Result<(RespawnPacket, nat)>)
    ensures r.Ok? ==> IsText(r.value.0.dimensionType) && IsText(r.value.0.dimensionName) && pos < r.value.1 <= |b|
  {
    hide TakeString, I64;
    var (dimensionType, p1) :- TakeString(b, pos);
    var (dimensionName, p2) :- TakeString(b, p1);
    var (seed, p3) :- TakeBytes(b, p2, 8);
    var (modes, p4) :- TakeBytes(b, p3, 4);
    Ok((RespawnPacket(dimensionType, dimensionName, I64(seed),
                      modes[0], AsI8(modes[1]), modes[2] != 0, modes[3] != 0, kept), p4))
  }

  // ----- Respawn packets -----

  /** The packet a spawn record stands for. */
  function FromSpawnInfo(info: SpawnInfo, kept: byte): RespawnPacket
    requires |info.seed| == 8 && |info.modes| == 4
  {
    RespawnPacket(info.name, info.name, I64(info.seed), info.modes[0],
                  if info.modes[1] == 255 then -1 else AsI8(info.modes[1]),
                  info.modes[2] != 0, info.modes[3] != 0, kept)
  }

  /** `RespawnPacket::decode_with_version`. */
  function DecodeRespawn(p: RawPacket, version: int): Result<RespawnPacket>
  {
    hide ReadSpawnInfo, ReadLegacySpawnInfo;
    if p.id != RespawnId(version) && !IsValidRespawnId(p.id) then Err(InvalidPacketId(p.id))
    else if version >= 766 then
      var (info, p1) :- ReadSpawnInfo(p.payload, 0, version, true);
      var (kept, _) :- TakeByte(p.payload, p1);
      Ok(FromSpawnInfo(info, kept))
    else
      var (r, p1) :- ReadLegacySpawnInfo(p.payload, 0, 0);
      var (kept, _) :- TakeByte(p.payload, p1);
      Ok(r.(dataKept := kept))
  }

  function EncodeModes(r: RespawnPacket): Bytes
  {
    [r.gamemode, PutI8(r.previousGamemode), PutBool(r.isDebug), PutBool(r.isFlat)]
  }

  /** `RespawnPacket::encode_with_version`. */
  function EncodeRespawn(r: RespawnPacket, version: int): RawPacket
  {
    RawPacket(RespawnId(version), if version >= 766 then ModernPayload(r, version) else LegacyPayload(r))
  }

  function ModernPayload(r: RespawnPacket, version: int): Bytes
  {
    var previous := if r.previousGamemode < 0 then 255 else r.previousGamemode;
    var sea := if version >= 768 then EncodeVarInt(63) else [];
    (EncodeVarInt(0) + PutString(r.dimensionName)) + (PutI64(r.seed) + (EncodeModes(r.(previousGamemode := previous))
    + ([0] + (EncodeVarInt(0) + (sea + [r.dataKept])))))
  }

  function LegacyPayload(r: RespawnPacket): Bytes
  {
    PutString(r.dimensionType) + (PutString(r.dimensionName) + (PutI64(r.seed) + (EncodeModes(r)
    + ([r.dataKept] + ([0] + EncodeVarInt(0))))))
  }

  /** `RespawnPacket::default_reset`. */
  function DefaultReset(kept: byte): RespawnPacket
  {
    RespawnPacket(OVERWORLD, OVERWORLD, 0, 0, -1, false, false, kept)
  }

  /** "minecraft:overworld" */
  const OVERWORLD: Bytes :=
    [0x6D, 0x69, 0x6E, 0x65, 0x63, 0x72, 0x61, 0x66, 0x74, 0x3A, 0x6F, 0x76, 0x65, 0x72, 0x77, 0x6F, 0x72, 0x6C, 0x64]

  // ----- Extraction -----

  /** `extract_respawn_from_login_with_data_kept`; an error stands for None. */
  function ExtractRespawn(login: Bytes, version: int, kept: byte): Result<RawPacket>
  {
    hide SkipLoginHead, ReadSpawnInfo, ReadLegacySpawnInfo;
    if version >= 766 then
      var start :- SkipLoginHead(login);
      var (_, end) :- ReadSpawnInfo(login, start, version, false);
      Ok(RawPacket(RespawnId(version), login[start..end] + [kept]))
    else if version >= 764 then
      var start :- SkipLoginHead(login);
      var (r, _) :- ReadLegacySpawnInfo(login, start, kept);
      Ok(EncodeRespawn(r, version))
    else
      Ok(EncodeRespawn(DefaultReset(kept), version))
  }

  // ----- Every reader depends only on the bytes it consumes -----

  lemma {:induction false} SkipStringsLocal(b: Bytes, pos: nat, c: Bytes, at: nat, count: nat)
    requires SkipStrings(b, pos, count).Ok? && Copied(b, pos, SkipStrings(b, pos, count).value, c, at)
    ensures SkipStrings(c, at, count) == Ok(at + SkipStrings(b, pos, count).value - pos)
    decreases count
  {
    hide TakeChunk;
    if count > 0 {
      var next := TakeChunk(b, pos).value.1;
      var end := SkipStrings(b, pos, count).value;
      CopiedSplit(b, pos, next, end, c, at);
      ChunkLocal(b, pos, c, at);
      SkipStringsLocal(b, next, c, at + next - pos, count - 1);
    }
  }

  /** The three limits of the login head. */
  lemma ThreeVarIntsLocal(b: Bytes, p0: nat, p1: nat, p2: nat, p3: nat, c: Bytes)
    requires DecodeVarInt(b, p0).Ok? && DecodeVarInt(b, p0).value.1 == p1
    requires DecodeVarInt(b, p1).Ok? && DecodeVarInt(b, p1).value.1 == p2
    requires DecodeVarInt(b, p2).Ok? && DecodeVarInt(b, p2).value.1 == p3
    requires Copied(b, p0, p3, c, p0)
    ensures DecodeVarInt(c, p0) == DecodeVarInt(b, p0)
    ensures DecodeVarInt(c, p1) == DecodeVarInt(b, p1)
    ensures DecodeVarInt(c, p2) == DecodeVarInt(b, p2)
  {
    hide DecodeVarInt;
    CopiedSplit(b, p0, p1, p3, c, p0);
    CopiedSplit(b, p1, p2, p3, c, p1);
    VarIntLocal(b, p0, c, p0);
    VarIntLocal(b, p1, c, p1);
    VarIntLocal(b, p2, c, p2);
  }

  lemma SkipLoginHeadLocal(b: Bytes, c: Bytes)
    requires SkipLoginHead(b).Ok? && Copied(b, 0, SkipLoginHead(b).value, c, 0)
    ensures SkipLoginHead(c) == SkipLoginHead(b)
  {
    hide DecodeVarInt, SkipStrings;
    var end := SkipLoginHead(b).value;
    var (count, p2) := DecodeVarInt(b, 5).value;
    var p3 := SkipStrings(b, p2, count).value;
    var p4 := DecodeVarInt(b, p3).value.1;
    var p5 := DecodeVarInt(b, p4).value.1;
    var p6 := DecodeVarInt(b, p5).value.1;
    CopiedSplit(b, 0, 5, end, c, 0);
    CopiedSplit(b, 5, p2, end, c, 5);
    CopiedSplit(b, p2, p3, end, c, p2);
    CopiedSplit(b, p3, p6, end, c, p3);
    VarIntLocal(b, 5, c, 5);
    SkipStringsLocal(b, p2, c, p2, count);
    ThreeVarIntsLocal(b, p3, p4, p5, p6, c);
  }

  lemma ReadDeathLocal(b: Bytes, pos: nat, c: Bytes, at: nat)
    requires ReadDeath(b, pos).Ok? && Copied(b, pos, ReadDeath(b, pos).value.1, c, at)
    ensures var (v, next) := ReadDeath(b, pos).value; ReadDeath(c, at) == Ok((v, at + next - pos))
  {
    hide TakeChunk;
    var next := ReadDeath(b, pos).value.1;
    CopiedSplit(b, pos, pos + 1, next, c, at);
    ByteLocal(b, pos, c, at);
    if b[pos] != 0 {
      CopiedSplit(b, pos + 1, next - 8, next, c, at + 1);
      ChunkLocal(b, pos + 1, c, at + 1);
      BytesLocal(b, next - 8, c, at + next - 8 - pos, 8);
    }
  }

  lemma ReadSeaLevelLocal(b: Bytes, pos: nat, c: Bytes, at: nat, version: int)
    requires ReadSeaLevel(b, pos, version).Ok? && Copied(b, pos, ReadSeaLevel(b, pos, version).value.1, c, at)
    ensures var (v, next) := ReadSeaLevel(b, pos, version).value; ReadSeaLevel(c, at, version) == Ok((v, at + next - pos))
  {
    hide DecodeVarInt;
    if version >= 768 {
      VarIntLocal(b, pos, c, at);
    }
  }

  /** What a lax reader accepts a strict reader accepts too if the name is UTF-8. */
  lemma ReadDimensionLocal(b: Bytes, pos: nat, c: Bytes, at: nat, strict: bool)
    requires ReadDimension(b, pos, false).Ok? && Copied(b, pos, ReadDimension(b, pos, false).value.2, c, at)
    ensures var (d, name, next) := ReadDimension(b, pos, false).value;
            ReadDimension(c, at, strict) ==
            if strict && !ValidUtf8(name) then Err(InvalidData) else Ok((d, name, at + next - pos))
  {
    hide DecodeVarInt, TakeChunk;
    var next := ReadDimension(b, pos, false).value.2;
    var p1 := DecodeVarInt(b, pos).value.1;
    CopiedSplit(b, pos, p1, next, c, at);
    VarIntLocal(b, pos, c, at);
    ChunkLocal(b, p1, c, at + p1 - pos);
  }

  lemma ReadTrailerLocal(b: Bytes, pos: nat, c: Bytes, at: nat, version: int)
    requires ReadTrailer(b, pos, version).Ok? && Copied(b, pos, ReadTrailer(b, pos, version).value.3, c, at)
    ensures var (death, cooldown, sea, next) := ReadTrailer(b, pos, version).value;
            ReadTrailer(c, at, version) == Ok((death, cooldown, sea, at + next - pos))
  {
    hide DecodeVarInt, ReadDeath, ReadSeaLevel;
    var end := ReadTrailer(b, pos, version).value.3;
    var p1 := ReadDeath(b, pos).value.1;
    var p2 := DecodeVarInt(b, p1).value.1;
    CopiedSplit(b, pos, p1, end, c, at);
    CopiedSplit(b, p1, p2, end, c, at + p1 - pos);
    ReadDeathLocal(b, pos, c, at);
    VarIntLocal(b, p1, c, at + p1 - pos);
    ReadSeaLevelLocal(b, p2, c, at + p2 - pos, version);
  }

  lemma ReadSpawnInfoLocal(b: Bytes, pos: nat, c: Bytes, at: nat, version: int, strict: bool)
    requires ReadSpawnInfo(b, pos, version, false).Ok?
    requires Copied(b, pos, ReadSpawnInfo(b, pos, version, false).value.1, c, at)
    ensures var (info, next) := ReadSpawnInfo(b, pos, version, false).value;
            ReadSpawnInfo(c, at, version, strict) ==
            if strict && !ValidUtf8(info.name) then Err(InvalidData) else Ok((info, at + next - pos))
  {
    hide ReadDimension, ReadTrailer;
    var end := ReadSpawnInfo(b, pos, version, false).value.1;
    var p1 := ReadDimension(b, pos, false).value.2;
    var shift := at - pos;
    CopiedSplit(b, pos, p1, end, c, at);
    CopiedSplit(b, p1, p1 + 8, end, c, p1 + shift);
    CopiedSplit(b, p1 + 8, p1 + 12, end, c, p1 + 8 + shift);
    ReadDimensionLocal(b, pos, c, at, strict);
    BytesLocal(b, p1, c, p1 + shift, 8);
    BytesLocal(b, p1 + 8, c, p1 + 8 + shift, 4);
    ReadTrailerLocal(b, p1 + 12, c, p1 + 12 + shift, version);
  }

  lemma ReadLegacySpawnInfoLocal(b: Bytes, pos: nat, c: Bytes, at: nat, kept: byte)
    requires ReadLegacySpawnInfo(b, pos, kept).Ok? && Copied(b, pos, ReadLegacySpawnInfo(b, pos, kept).value.1, c, at)
    ensures var (r, next) := ReadLegacySpawnInfo(b, pos, kept).value; ReadLegacySpawnInfo(c, at, kept) == Ok((r, at + next - pos))
  {
    hide TakeString, I64, Copied, IsText;
    var end := ReadLegacySpawnInfo(b, pos, kept).value.1;
    var p1 := TakeString(b, pos).value.1;
    var p2 := TakeString(b, p1).value.1;
    CopiedSplit(b, pos, p1, end, c, at);
    CopiedSplit(b, p1, p2, end, c, at + p1 - pos);
    CopiedSplit(b, p2, p2 + 8, end, c, at + p2 - pos);
    StringLocal(b, pos, c, at);
    StringLocal(b, p1, c, at + p1 - pos);
    BytesLocal(b, p2, c, at + p2 - pos, 8);
    BytesLocal(b, p2 + 8, c, at + p2 + 8 - pos, 4);
  }

  /** Where the spawn record of a Login ends, in the layout of its version. */
  function RecordEnd(login: Bytes, version: int): (r: Result<nat>)
    ensures r.Ok? ==> r.value <= |login|
  {
    hide SkipLoginHead, ReadSpawnInfo, ReadLegacySpawnInfo;
    var start :- SkipLoginHead(login);
    if version >= 766 then
      var (_, end) :- ReadSpawnInfo(login, start, version, false);
      Ok(end)
    else
      var (_, end) :- ReadLegacySpawnInfo(login, start, 0);
      Ok(end)
  }

  lemma KeptDoesNotMatter(b: Bytes, pos: nat, kept: byte)
    ensures var r, s := ReadLegacySpawnInfo(b, pos, kept), ReadLegacySpawnInfo(b, pos, 0);
            && (r.Ok? <==> s.Ok?) && (r.Ok? ==> r.value == (s.value.0.(dataKept := kept), s.value.1))
            && (r.Err? ==> r.error == s.error)
  {
    hide TakeString, I64, IsText;
  }

  /** Two Logins that agree up to the end of the record of one of them have the same record and the same Respawn. */
  lemma ExtractionIsLocal(b: Bytes, c: Bytes, version: int, kept: byte, end: nat)
    requires version >= 764 && RecordEnd(b, version) == Ok(end) && end <= |c| && b[..end] == c[..end]
    ensures RecordEnd(c, version) == Ok(end)
    ensures ExtractRespawn(c, version, kept) == ExtractRespawn(b, version, kept) && ExtractRespawn(b, version, kept).Ok?
  {
    hide SkipLoginHead, ReadSpawnInfo, ReadLegacySpawnInfo, EncodeRespawn;
    var start := SkipLoginHead(b).value;
    assert b[0..end] == c[0..end];
    CopiedSplit(b, 0, start, end, c, 0);
    SkipLoginHeadLocal(b, c);
    if version >= 766 {
      ReadSpawnInfoLocal(b, start, c, start, version, false);
      assert b[start..end] == c[start..end];
    } else {
      ReadLegacySpawnInfoLocal(b, start, c, start, 0);
      KeptDoesNotMatter(b, start, kept);
      KeptDoesNotMatter(c, start, kept);
    }
  }

  // ----- Extraction agrees with the Login it came from -----

  /**
   * From protocol 766 on the extracted Respawn carries the spawn record byte for byte, followed by
   * `kept`; it decodes to that record's fields if and only if the dimension name is UTF-8.
   */
  lemma ModernExtractionAgrees(login: Bytes, version: int, kept: byte, start: nat, info: SpawnInfo, end: nat)
    requires version >= 766
    requires SkipLoginHead(login) == Ok(start) && ReadSpawnInfo(login, start, version, false) == Ok((info, end))
    ensures ExtractRespawn(login, version, kept) == Ok(RawPacket(RespawnId(version), login[start..end] + [kept]))
    ensures var packet := RawPacket(RespawnId(version), login[start..end] + [kept]);
            DecodeRespawn(packet, version) ==
            if ValidUtf8(info.name) then Ok(FromSpawnInfo(info, kept)) else Err(InvalidData)
  {
    hide SkipLoginHead, ReadSpawnInfo;
    var payload := login[start..end] + [kept];
    assert At(payload, 0, login[start..end]);
    ReadSpawnInfoLocal(login, start, payload, 0, version, true);
  }

  /** Whatever follows the spawn record in the Login does not matter. */
  lemma TrailingLoginFieldsAreIgnored(login: Bytes, version: int, kept: byte, end: nat, tail: Bytes)
    requires version >= 764 && RecordEnd(login, version) == Ok(end)
    ensures ExtractRespawn(login[..end] + tail, version, kept) == ExtractRespawn(login, version, kept)
  {
    hide ExtractRespawn, RecordEnd;
    ExtractionIsLocal(login, login[..end] + tail, version, kept, end);
  }

  /** A Login yields a Respawn exactly when it reaches the end of its spawn record: cut anywhere before, it yields nothing. */
  lemma CutLoginYieldsNothing(login: Bytes, version: int, kept: byte, end: nat, cut: nat)
    requires version >= 764 && RecordEnd(login, version) == Ok(end) && cut <= |login|
    ensures ExtractRespawn(login[..cut], version, kept).Ok? <==> end <= cut
  {
    hide ExtractRespawn, RecordEnd;
    var short := login[..cut];
    if end <= cut {
      ExtractionIsLocal(login, short, version, kept, end);
    } else if ExtractRespawn(short, version, kept).Ok? {
      ExtractedHasEnd(short, version, kept);
      var stop := RecordEnd(short, version).value;
      assert short[..stop] == login[..stop];
      ExtractionIsLocal(short, login, version, kept, stop);
    }
  }

  lemma ExtractedHasEnd(login: Bytes, version: int, kept: byte)
    requires version >= 764 && ExtractRespawn(login, version, kept).Ok?
    ensures RecordEnd(login, version).Ok?
  {
    hide SkipLoginHead, ReadSpawnInfo, ReadLegacySpawnInfo, EncodeRespawn;
    if version < 766 {
      KeptDoesNotMatter(login, SkipLoginHead(login).value, kept);
    }
  }

  // ----- Encoding and decoding Respawn -----

  /** What survives: from 766 on the type is replaced by the name and any negative mode becomes -1. */
  function Surviving(r: RespawnPacket, version: int): RespawnPacket
  {
    if version < 766 then r
    else r.(dimensionType := r.dimensionName, previousGamemode := if r.previousGamemode < 0 then -1 else r.previousGamemode)
  }

  predicate Encodable(r: RespawnPacket)
  {
    IsText(r.dimensionType) && IsText(r.dimensionName) && -128 <= r.previousGamemode < 128
  }

  lemma LegacyPayloadReads(r: RespawnPacket)
    requires Encodable(r)
    ensures var b := LegacyPayload(r); var n := |PutString(r.dimensionType)| + |PutString(r.dimensionName)| + 12;
            ReadLegacySpawnInfo(b, 0, 0) == Ok((r.(dataKept := 0), n)) && TakeByte(b, n) == Ok((r.dataKept, n + 1))
  {
    hide TakeString, I64, PutI64, EncodeVarInt, PutString, IsText, At;
    var b := LegacyPayload(r);
    var tail0 := [r.dataKept] + ([0] + EncodeVarInt(0));
    var tail1 := EncodeModes(r) + tail0;
    var p1 := |PutString(r.dimensionType)|;
    var p2 := p1 + |PutString(r.dimensionName)|;
    AtPieces(PutString(r.dimensionType), PutString(r.dimensionName), PutI64(r.seed), tail1);
    AtSplit(b, p2 + 8, EncodeModes(r), tail0);
    StringRoundTrip(b, 0, r.dimensionType);
    StringRoundTrip(b, p1, r.dimensionName);
    BytesRoundTrip(b, p2, PutI64(r.seed));
    BytesRoundTrip(b, p2 + 8, EncodeModes(r));
    I64RoundTrip(r.seed);
    AtByte(b, p2 + 12, tail0, 0);
  }

  /** The spawn record a modern payload spells out. */
  function SpawnInfoOf(r: RespawnPacket, version: int): SpawnInfo
  {
    var previous := if r.previousGamemode < 0 then 255 else r.previousGamemode;
    SpawnInfo(0, r.dimensionName, PutI64(r.seed), EncodeModes(r.(previousGamemode := previous)), None, 0,
              if version >= 768 then Some(63) else None)
  }

  lemma SpawnInfoSurvives(r: RespawnPacket, version: int)
    requires Encodable(r) && version >= 766
    ensures FromSpawnInfo(SpawnInfoOf(r, version), r.dataKept) == Surviving(r, version)
  {
    hide I64, PutI64, IsText;
    I64RoundTrip(r.seed);
  }

  lemma ModernPayloadReads(r: RespawnPacket, version: int)
    requires Encodable(r) && version >= 766
    ensures var b := ModernPayload(r, version); var n := |b| - 1;
            && ReadSpawnInfo(b, 0, version, true) == Ok((SpawnInfoOf(r, version), n))
            && TakeByte(b, n) == Ok((r.dataKept, n + 1))
  {
    hide PutI64, EncodeVarInt, PutString, ReadSpawnInfo, EncodeModes, PutSpawnInfo;
    var info := SpawnInfoOf(r, version);
    assert |info.modes| == 4 by { Four(r, version); }
    assert ModernPayload(r, version) == PutSpawnInfo(info) + [r.dataKept] by { ModernIsRecord(r, version); }
    AtSelf(PutSpawnInfo(info), [r.dataKept]);
    SpawnInfoReads(ModernPayload(r, version), 0, info, version, true);
  }

  lemma ModernIsRecord(r: RespawnPacket, version: int)
    requires version >= 766
    ensures ModernPayload(r, version) == PutSpawnInfo(SpawnInfoOf(r, version)) + [r.dataKept]
  {
    hide PutI64, EncodeVarInt, PutString, EncodeModes;
    var info, sea := SpawnInfoOf(r, version), if version >= 768 then EncodeVarInt(63) else [];
    var head := EncodeVarInt(0) + PutString(r.dimensionName);
    Associative(EncodeVarInt(0), sea, [r.dataKept]);
    Associative([0], EncodeVarInt(0) + sea, [r.dataKept]);
    Associative4(head, info.seed, info.modes, [0] + (EncodeVarInt(0) + sea) + [r.dataKept]);
    Associative4(head, info.seed, info.modes, [0] + (EncodeVarInt(0) + sea));
    Associative(head + info.seed + info.modes, [0] + (EncodeVarInt(0) + sea), [r.dataKept]);
  }

  lemma Four(r: RespawnPacket, version: int)
    ensures |SpawnInfoOf(r, version).modes| == 4
  {}

  /** Decoding an encoded Respawn gives back every field the version carries. */
  lemma RespawnRoundTrip(r: RespawnPacket, version: int)
    requires Encodable(r)
    ensures DecodeRespawn(EncodeRespawn(r, version), version) == Ok(Surviving(r, version))
  {
    hide ReadSpawnInfo, ReadLegacySpawnInfo, ModernPayload, LegacyPayload, IsText, FromSpawnInfo, SpawnInfoOf;
    if version >= 766 {
      Four(r, version);
      ModernPayloadReads(r, version);
      SpawnInfoSurvives(r, version);
    } else {
      LegacyPayloadReads(r);
    }
  }

  /** In protocols 764 and 765 the extracted Respawn decodes to exactly the record read from the Login. */
  lemma LegacyExtractionAgrees(login: Bytes, version: int, kept: byte, start: nat, r: RespawnPacket, end: nat)
    requires 764 <= version < 766
    requires SkipLoginHead(login) == Ok(start) && ReadLegacySpawnInfo(login, start, kept) == Ok((r, end))
    ensures var out := ExtractRespawn(login, version, kept);
            out.Ok? && DecodeRespawn(out.value, version) == Ok(r) && r.dataKept == kept
  {
    hide SkipLoginHead, ReadLegacySpawnInfo, DecodeRespawn, EncodeRespawn, IsText;
    LegacyIsEncodable(login, start, kept);
    RespawnRoundTrip(r, version);
  }

  lemma LegacyIsEncodable(b: Bytes, pos: nat, kept: byte)
    requires ReadLegacySpawnInfo(b, pos, kept).Ok?
    ensures var r := ReadLegacySpawnInfo(b, pos, kept).value.0; Encodable(r) && r.dataKept == kept
  {
    hide TakeString, I64, IsText;
  }

  // ----- Whole Login packets -----

  /** A Login (Play) as far as the extraction looks at it. */
  datatype Login = Login(
    entity: Bytes,             // four bytes
    hardcore: byte,
    names: seq<Bytes>,         // dimension names
    maxPlayers: i32,
    viewDistance: i32,
    simulationDistance: i32,
    flags: Bytes,              // three flags
    dimension: i32,
    dimensionType: Bytes,
    dimensionName: Bytes,
    seed: i64,
    gamemode: byte,
    previousGamemode: int,
    isDebug: bool,
    isFlat: bool,
    death: Place,
    portalCooldown: i32,
    seaLevel: i32)

  predicate WellFormed(l: Login)
  {
    && |l.entity| == 4 && |l.flags| == 3 && -128 <= l.previousGamemode < 128
    && |l.names| < 0x8000_0000 && (forall i :: 0 <= i < |l.names| ==> |l.names[i]| < 0x8000_0000)
    && IsText(l.dimensionType) && IsText(l.dimensionName)
    && (l.death.Some? ==> |l.death.value.0| < 0x8000_0000 && |l.death.value.1| == 8)
  }

  function PutStrings(names: seq<Bytes>): Bytes
  {
    if names == [] then [] else PutString(names[0]) + PutStrings(names[1..])
  }

  function PutLimits(l: Login): Bytes
  {
    EncodeVarInt(l.maxPlayers) + (EncodeVarInt(l.viewDistance) + (EncodeVarInt(l.simulationDistance) + l.flags))
  }

  function PutHead(l: Login): Bytes
  {
    (l.entity + [l.hardcore]) + (EncodeVarInt(AsI32(|l.names|)) + (PutStrings(l.names) + PutLimits(l)))
  }

  function PutDeath(death: Place): Bytes
  {
    match death
    case None => [0]
    case Some((dimension, position)) => [1] + (PutString(dimension) + position)
  }

  function PutSea(seaLevel: Option<i32>): Bytes { if seaLevel.Some? then EncodeVarInt(seaLevel.value) else [] }

  /** The spawn record of protocols from 766 on. */
  function PutSpawnInfo(info: SpawnInfo): Bytes
  {
    (EncodeVarInt(info.dimension) + PutString(info.name)) + (info.seed + (info.modes
    + (PutDeath(info.death) + (EncodeVarInt(info.portalCooldown) + PutSea(info.seaLevel)))))
  }

  /** The fields have the widths the record gives them. */
  predicate Regular(info: SpawnInfo, version: int)
  {
    && |info.name| < 0x8000_0000 && |info.seed| == 8 && |info.modes| == 4
    && (info.death.Some? ==> |info.death.value.0| < 0x8000_0000 && |info.death.value.1| == 8)
    && (info.seaLevel.Some? <==> version >= 768)
  }

  /** The Respawn a Login is to become: its own dimension, seed, game modes and flags. */
  function RespawnOf(l: Login, version: int, kept: byte): RespawnPacket
  {
    RespawnPacket(if version >= 766 then l.dimensionName else l.dimensionType, l.dimensionName, l.seed,
                  l.gamemode, l.previousGamemode, l.isDebug, l.isFlat, kept)
  }

  function SpawnRecord(l: Login, version: int): SpawnInfo
  {
    SpawnInfo(l.dimension, l.dimensionName, PutI64(l.seed), EncodeModes(RespawnOf(l, version, 0)), l.death, l.portalCooldown,
              if version >= 768 then Some(l.seaLevel) else None)
  }

  function PutLegacySpawnInfo(l: Login, version: int): Bytes
  {
    PutString(l.dimensionType) + (PutString(l.dimensionName) + (PutI64(l.seed) + EncodeModes(RespawnOf(l, version, 0))))
  }

  function EncodeLogin(l: Login, version: int): Bytes
  {
    PutHead(l) + if version >= 766 then PutSpawnInfo(SpawnRecord(l, version)) else PutLegacySpawnInfo(l, version)
  }

  lemma {:induction false} StringsSkip(b: Bytes, pos: nat, names: seq<Bytes>)
    requires At(b, pos, PutStrings(names)) && forall i :: 0 <= i < |names| ==> |names[i]| < 0x8000_0000
    ensures SkipStrings(b, pos, |names|) == Ok(pos + |PutStrings(names)|)
    decreases |names|
  {
    hide At, TakeChunk, PutString;
    if names != [] {
      AtSplit(b, pos, PutString(names[0]), PutStrings(names[1..]));
      ChunkRoundTrip(b, pos, names[0]);
      StringsSkip(b, pos + |PutString(names[0])|, names[1..]);
    }
  }

  /** The head is skipped unless it announces more than 1024 dimension names. */
  lemma HeadSkips(b: Bytes, l: Login)
    requires WellFormed(l) && At(b, 0, PutHead(l))
    ensures SkipLoginHead(b) == if |l.names| <= 1024 then Ok(|PutHead(l)|) else Err(InvalidData)
  {
    hide At, EncodeVarInt, DecodeVarInt, PutStrings, SkipStrings, IsText, PutLimits;
    var fixed, count := l.entity + [l.hardcore], EncodeVarInt(|l.names|);
    var p2 := 5 + |count|;
    var p3 := p2 + |PutStrings(l.names)|;
    AtSplit(b, 0, fixed, count + (PutStrings(l.names) + PutLimits(l)));
    AtSplit(b, 5, count, PutStrings(l.names) + PutLimits(l));
    AtSplit(b, p2, PutStrings(l.names), PutLimits(l));
    BytesRoundTrip(b, 0, fixed);
    VarIntRoundTrip(b, 5, |l.names|);
    StringsSkip(b, p2, l.names);
    LimitsSkip(b, p3, l);
  }

  lemma LimitsSkip(b: Bytes, pos: nat, l: Login)
    requires |l.flags| == 3 && At(b, pos, PutLimits(l))
    ensures var p4 := pos + |EncodeVarInt(l.maxPlayers)|; var p5 := p4 + |EncodeVarInt(l.viewDistance)|;
            var p6 := p5 + |EncodeVarInt(l.simulationDistance)|;
            && DecodeVarInt(b, pos) == Ok((l.maxPlayers, p4)) && DecodeVarInt(b, p4) == Ok((l.viewDistance, p5))
            && DecodeVarInt(b, p5) == Ok((l.simulationDistance, p6)) && p6 + 3 == pos + |PutLimits(l)| <= |b|
  {
    hide At, EncodeVarInt, DecodeVarInt;
    var x, y, z := EncodeVarInt(l.maxPlayers), EncodeVarInt(l.viewDistance), EncodeVarInt(l.simulationDistance);
    AtSplit(b, pos, x, y + (z + l.flags));
    AtSplit(b, pos + |x|, y, z + l.flags);
    AtSplit(b, pos + |x| + |y|, z, l.flags);
    VarIntRoundTrip(b, pos, l.maxPlayers);
    VarIntRoundTrip(b, pos + |x|, l.viewDistance);
    VarIntRoundTrip(b, pos + |x| + |y|, l.simulationDistance);
    BytesRoundTrip(b, pos + |x| + |y| + |z|, l.flags);
  }

  lemma DeathReads(b: Bytes, pos: nat, death: Place)
    requires death.Some? ==> |death.value.0| < 0x8000_0000 && |death.value.1| == 8
    requires At(b, pos, PutDeath(death))
    ensures ReadDeath(b, pos) == Ok((death, pos + |PutDeath(death)|))
  {
    hide At, PutString, TakeChunk;
    if death.Some? {
      var (dimension, position) := death.value;
      AtSplit(b, pos, [1], PutString(dimension) + position);
      AtSplit(b, pos + 1, PutString(dimension), position);
      AtByte(b, pos, [1], 0);
      ChunkRoundTrip(b, pos + 1, dimension);
      BytesRoundTrip(b, pos + 1 + |PutString(dimension)|, position);
    } else {
      AtByte(b, pos, [0], 0);
    }
  }

  lemma DimensionReads(b: Bytes, pos: nat, dimension: i32, name: Bytes, strict: bool)
    requires |name| < 0x8000_0000 && At(b, pos, EncodeVarInt(dimension) + PutString(name))
    ensures ReadDimension(b, pos, strict) ==
            if strict && !ValidUtf8(name) then Err(InvalidData)
            else Ok((dimension, name, pos + |EncodeVarInt(dimension)| + |PutString(name)|))
  {
    hide TakeChunk, EncodeVarInt, DecodeVarInt, PutString, At;
    AtSplit(b, pos, EncodeVarInt(dimension), PutString(name));
    VarIntRoundTrip(b, pos, dimension);
    ChunkRoundTrip(b, pos + |EncodeVarInt(dimension)|, name);
  }

  lemma TrailerReads(b: Bytes, pos: nat, info: SpawnInfo, version: int)
    requires Regular(info, version) && At(b, pos, PutDeath(info.death) + (EncodeVarInt(info.portalCooldown) + PutSea(info.seaLevel)))
    ensures ReadTrailer(b, pos, version)
         == Ok((info.death, info.portalCooldown, info.seaLevel,
                pos + |PutDeath(info.death)| + |EncodeVarInt(info.portalCooldown)| + |PutSea(info.seaLevel)|))
  {
    hide At, EncodeVarInt, DecodeVarInt, ReadDeath, PutDeath;
    var x, y := PutDeath(info.death), EncodeVarInt(info.portalCooldown);
    AtSplit(b, pos, x, y + PutSea(info.seaLevel));
    AtSplit(b, pos + |x|, y, PutSea(info.seaLevel));
    DeathReads(b, pos, info.death);
    VarIntRoundTrip(b, pos + |x|, info.portalCooldown);
    if info.seaLevel.Some? {
      VarIntRoundTrip(b, pos + |x| + |y|, info.seaLevel.value);
    }
  }

  /** A spawn record is read back wherever it lies; strict readers insist on a UTF-8 name. */
  lemma SpawnInfoReads(b: Bytes, pos: nat, info: SpawnInfo, version: int, strict: bool)
    requires Regular(info, version) && At(b, pos, PutSpawnInfo(info))
    ensures ReadSpawnInfo(b, pos, version, strict) ==
            if strict && !ValidUtf8(info.name) then Err(InvalidData) else Ok((info, pos + |PutSpawnInfo(info)|))
  {
    hide At, EncodeVarInt, PutString, ReadDimension, ReadTrailer, PutDeath, PutSea;
    var head := EncodeVarInt(info.dimension) + PutString(info.name);
    var trailer := PutDeath(info.death) + (EncodeVarInt(info.portalCooldown) + PutSea(info.seaLevel));
    AtSplit(b, pos, head, info.seed + (info.modes + trailer));
    AtSplit(b, pos + |head|, info.seed, info.modes + trailer);
    AtSplit(b, pos + |head| + 8, info.modes, trailer);
    DimensionReads(b, pos, info.dimension, info.name, strict);
    BytesRoundTrip(b, pos + |head|, info.seed);
    BytesRoundTrip(b, pos + |head| + 8, info.modes);
    TrailerReads(b, pos + |head| + 12, info, version);
  }

  lemma LegacySpawnInfoReads(b: Bytes, pos: nat, l: Login, version: int, kept: byte)
    requires WellFormed(l) && version < 766 && At(b, pos, PutLegacySpawnInfo(l, version))
    ensures ReadLegacySpawnInfo(b, pos, kept) == Ok((RespawnOf(l, version, kept), pos + |PutLegacySpawnInfo(l, version)|))
  {
    hide TakeString, I64, PutI64, PutString, IsText, At;
    var r := RespawnOf(l, version, 0);
    var p1 := pos + |PutString(l.dimensionType)|;
    var p2 := p1 + |PutString(l.dimensionName)|;
    AtSplit(b, pos, PutString(l.dimensionType), PutString(l.dimensionName) + (PutI64(l.seed) + EncodeModes(r)));
    AtSplit(b, p1, PutString(l.dimensionName), PutI64(l.seed) + EncodeModes(r));
    AtSplit(b, p2, PutI64(l.seed), EncodeModes(r));
    StringRoundTrip(b, pos, l.dimensionType);
    StringRoundTrip(b, p1, l.dimensionName);
    BytesRoundTrip(b, p2, PutI64(l.seed));
    BytesRoundTrip(b, p2 + 8, EncodeModes(r));
    I64RoundTrip(l.seed);
  }

  lemma RecordStandsForLogin(l: Login, version: int, kept: byte)
    requires WellFormed(l) && version >= 766
    ensures |SpawnRecord(l, version).modes| == 4 && FromSpawnInfo(SpawnRecord(l, version), kept) == RespawnOf(l, version, kept)
  {
    hide I64, PutI64, IsText;
    I64RoundTrip(l.seed);
  }

  /**
   * From every well-formed Login with at most 1024 dimension names, whatever fields follow, the extraction
   * yields a Respawn that decodes to that Login's dimension, seed, game modes and flags with the requested
   * data kept; from any other Login it yields nothing.
   */
  lemma ExtractionCarriesTheLogin(l: Login, tail: Bytes, version: int, kept: byte)
    requires WellFormed(l) && version >= 764
    ensures var r := ExtractRespawn(EncodeLogin(l, version) + tail, version, kept);
            && (r.Ok? <==> |l.names| <= 1024)
            && (r.Ok? ==> DecodeRespawn(r.value, version) == Ok(RespawnOf(l, version, kept)))
  {
    hide SkipLoginHead, ReadSpawnInfo, ReadLegacySpawnInfo, DecodeRespawn, PutHead, PutSpawnInfo, PutLegacySpawnInfo, FromSpawnInfo,
         PutI64, ValidUtf8, EncodeRespawn, At, SpawnRecord, RespawnOf;
    var record := if version >= 766 then PutSpawnInfo(SpawnRecord(l, version)) else PutLegacySpawnInfo(l, version);
    var login := EncodeLogin(l, version) + tail;
    AtSelf(EncodeLogin(l, version), tail);
    AtSplit(login, 0, PutHead(l), record);
    HeadSkips(login, l);
    if version >= 766 {
      RecordFits(l, version);
      RecordStandsForLogin(l, version, kept);
      SpawnInfoReads(login, |PutHead(l)|, SpawnRecord(l, version), version, false);
      if |l.names| <= 1024 {
        ModernExtractionAgrees(login, version, kept, |PutHead(l)|, SpawnRecord(l, version), |PutHead(l)| + |record|);
      }
    } else {
      LegacySpawnInfoReads(login, |PutHead(l)|, l, version, kept);
      if |l.names| <= 1024 {
        LegacyExtractionAgrees(login, version, kept, |PutHead(l)|, RespawnOf(l, version, kept), |PutHead(l)| + |record|);
      }
    }
  }

  lemma RecordFits(l: Login, version: int)
    requires WellFormed(l)
    ensures var info := SpawnRecord(l, version);
            Regular(info, version) && info.name == l.dimensionName && ValidUtf8(info.name)
  {
    hide ValidUtf8;
  }

  // ----- The code -----

  /** The loop over the dimension names of a Login. */
  method SkipDimensionNames(b: Bytes, pos: nat, count: nat) returns (r: Result<nat>)
    ensures r == SkipStrings(b, pos, count)
  {
    var cursor: nat := pos;
    for i := 0 to count
      invariant SkipStrings(b, cursor, count - i) == SkipStrings(b, pos, count)
    {
      hide DecodeVarInt, At;
      var len := TakeVarInt(b, cursor);
      if len.Err? {
        return Err(len.error);
      }
      var (strLen, next) := len.value;
      if strLen < 0 || |b| - next < strLen {
        return Err(UnexpectedEof);
      }
      cursor := next + strLen;
    }
    return Ok(cursor);
  }

  method LocateSpawnInfo(b: Bytes) returns (r: Result<nat>)
    ensures r == SkipLoginHead(b)
  {
    hide DecodeVarInt, SkipStrings;
    if |b| < 5 {
      return Err(UnexpectedEof);
    }
    var count := TakeVarInt(b, 5);
    if count.Err? {
      return Err(count.error);
    }
    if !(0 <= count.value.0 <= 1024) {
      return Err(InvalidData);
    }
    var names := SkipDimensionNames(b, count.value.1, count.value.0);
    if names.Err? {
      return names;
    }
    var maxPlayers := TakeVarInt(b, names.value);
    if maxPlayers.Err? {
      return Err(maxPlayers.error);
    }
    var viewDistance := TakeVarInt(b, maxPlayers.value.1);
    if viewDistance.Err? {
      return Err(viewDistance.error);
    }
    var simulationDistance := TakeVarInt(b, viewDistance.value.1);
    if simulationDistance.Err? {
      return Err(simulationDistance.error);
    }
    var flags := simulationDistance.value.1;
    return if flags + 3 > |b| then Err(UnexpectedEof) else Ok(flags + 3);
  }

  /** `extract_respawn_from_login_with_data_kept`. */
  method ExtractFromLogin(login: RawPacket, version: int, kept: byte) returns (r: Result<RawPacket>)
    ensures r == ExtractRespawn(login.payload, version, kept)
  {
    hide SkipLoginHead, ReadSpawnInfo, ReadLegacySpawnInfo;
    if version < 764 {
      return Ok(EncodeRespawn(DefaultReset(kept), version));
    }
    var start := LocateSpawnInfo(login.payload);
    if start.Err? {
      return Err(start.error);
    }
    if version >= 766 {
      var info := ReadSpawnInfo(login.payload, start.value, version, false);
      if info.Err? {
        return Err(info.error);
      }
      var spawnInfo := login.payload[start.value..info.value.1];
      r := Ok(RawPacket(RespawnId(version), spawnInfo + [kept]));
    } else {
      var info := ReadLegacySpawnInfo(login.payload, start.value, kept);
      if info.Err? {
        return Err(info.error);
      }
      r := Ok(EncodeRespawn(info.value.0, version));
    }
  }
}
