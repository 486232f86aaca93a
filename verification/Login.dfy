/** LoginSuccess by protocol version, and the Velocity forwarding payload that shares its property layout. */
module Login {
  import opened Wire
  import opened VarInt
  import opened Fields

  datatype Property = Property(name: Bytes, value: Bytes, signature: Option<Bytes>)

  datatype LoginSuccess = LoginSuccess(uuid: Bytes, username: Bytes, properties: seq<Property>, session: Option<Bytes>)

  /** The hyphenated spelling of a UUID, which only protocols before 707 use. */
  datatype UuidText = UuidText(format: Bytes -> Bytes, parse: Bytes -> Option<Bytes>) {
    ghost predicate Lawful()
    {
      forall u: Bytes :: |u| == 16 ==> IsText(format(u)) && parse(format(u)) == Some(u)
    }
  }

  /** A spelling that obeys the law: one character per half byte. */
  function HalfBytes(u: Bytes): (t: Bytes)
    ensures |t| == 2 * |u|
  {
    if u == [] then [] else [u[0] / 16, u[0] % 16] + HalfBytes(u[1..])
  }

  function JoinHalves(t: Bytes): Bytes
  {
    if |t| < 2 then [] else [t[0] % 16 * 16 + t[1] % 16] + JoinHalves(t[2..])
  }

  lemma {:induction false} HalvesJoin(u: Bytes)
    ensures JoinHalves(HalfBytes(u)) == u && ValidUtf8(HalfBytes(u))
  {
    if u != [] {
      var t := HalfBytes(u);
      HalvesJoin(u[1..]);
      assert t[2..] == HalfBytes(u[1..]) && t[1..][1..] == t[2..];
      assert ValidUtf8(t[1..]);
    }
  }

  lemma LawfulUuidTextsExist()
    ensures exists text: UuidText :: text.Lawful()
  {
    var text := UuidText((u: Bytes) => HalfBytes(u), (t: Bytes) => Some(JoinHalves(t)));
    forall u: Bytes | |u| == 16 ensures IsText(text.format(u)) && text.parse(text.format(u)) == Some(u) {
      HalvesJoin(u);
    }
    assert text.Lawful();
  }

  // ----- Properties -----

  function EncodeSignature(s: Option<Bytes>): Bytes
  {
    match s
    case Some(text) => [1] + PutString(text)
    case None => [0]
  }

  function EncodeProperty(p: Property): Bytes
  {
    PutString(p.name) + (PutString(p.value) + EncodeSignature(p.signature))
  }

  function EncodeProperties(ps: seq<Property>): Bytes
  {
    if ps == [] then [] else EncodeProperty(ps[0]) + EncodeProperties(ps[1..])
  }

  function ReadSignature(b: Bytes, pos: nat): (r: Result<(Option<Bytes>, nat)>)
    ensures r.Ok? ==> pos < r.value.1 <= |b|
  {
    hide TakeString;
    var (flag, p1) :- TakeByte(b, pos);
    if flag == 0 then Ok((None, p1))
    else
      var (s, p2) :- TakeString(b, p1);
      Ok((Some(s), p2))
  }

  function ReadProperty(b: Bytes, pos: nat): (r: Result<(Property, nat)>)
    ensures r.Ok? ==> pos < r.value.1 <= |b|
  {
    hide TakeString, ReadSignature;
    var (name, p1) :- TakeString(b, pos);
    var (value, p2) :- TakeString(b, p1);
    var (signature, p3) :- ReadSignature(b, p2);
    Ok((Property(name, value, signature), p3))
  }

  function ReadProperties(b: Bytes, pos: nat, n: nat): (r: Result<(seq<Property>, nat)>)
    ensures r.Ok? ==> pos <= r.value.1 && (pos <= |b| ==> r.value.1 <= |b|)
    decreases n
  {
    if n == 0 then Ok(([], pos))
    else
      var (p, next) :- ReadProperty(b, pos);
      var (ps, end) :- ReadProperties(b, next, n - 1);
      Ok(([p] + ps, end))
  }

  predicate TextProperty(p: Property)
  {
    IsText(p.name) && IsText(p.value) && (p.signature.Some? ==> IsText(p.signature.value))
  }

  /** What Rust's types guarantee (UTF-8 strings, 16-byte UUIDs) and lengths an i32 can count. */
  predicate TextProperties(ps: seq<Property>)
  {
    |ps| < 0x8000_0000 && forall i :: 0 <= i < |ps| ==> TextProperty(ps[i])
  }

  lemma PropertyRoundTrip(b: Bytes, pos: nat, p: Property)
    requires TextProperty(p) && At(b, pos, EncodeProperty(p))
    ensures ReadProperty(b, pos) == Ok((p, pos + |EncodeProperty(p)|))
  {
    hide At, PutString, TakeString, IsText;
    var p1 := pos + |PutString(p.name)|;
    var p2 := p1 + |PutString(p.value)|;
    AtSplit(b, pos, PutString(p.name), PutString(p.value) + EncodeSignature(p.signature));
    AtSplit(b, p1, PutString(p.value), EncodeSignature(p.signature));
    StringRoundTrip(b, pos, p.name);
    StringRoundTrip(b, p1, p.value);
    AtByte(b, p2, EncodeSignature(p.signature), 0);
    if p.signature.Some? {
      AtSplit(b, p2, [1], PutString(p.signature.value));
      StringRoundTrip(b, p2 + 1, p.signature.value);
    }
  }

  /** Name, value, and a flag saying whether a signature follows. */
  lemma PropertyLayout(p: Property)
    ensures var b := EncodeProperty(p); var n := |PutString(p.name)|; var m := n + |PutString(p.value)|;
            && At(b, 0, PutString(p.name)) && At(b, n, PutString(p.value)) && m < |b|
            && b[m] == (if p.signature.Some? then 1 else 0)
            && b[m + 1..] == if p.signature.Some? then PutString(p.signature.value) else []
  {
    hide At, PutString;
    var b := EncodeProperty(p);
    assert b + [] == b;
    AtSelf(b, []);
    AtSplit(b, 0, PutString(p.name), PutString(p.value) + EncodeSignature(p.signature));
    AtSplit(b, |PutString(p.name)|, PutString(p.value), EncodeSignature(p.signature));
  }

  lemma {:induction false} PropertiesRoundTrip(b: Bytes, pos: nat, ps: seq<Property>)
    requires (forall i :: 0 <= i < |ps| ==> TextProperty(ps[i])) && At(b, pos, EncodeProperties(ps))
    ensures ReadProperties(b, pos, |ps|) == Ok((ps, pos + |EncodeProperties(ps)|))
    decreases |ps|
  {
    hide At, EncodeProperty, ReadProperty, TextProperty;
    if ps != [] {
      AtSplit(b, pos, EncodeProperty(ps[0]), EncodeProperties(ps[1..]));
      PropertyRoundTrip(b, pos, ps[0]);
      PropertiesRoundTrip(b, pos + |EncodeProperty(ps[0])|, ps[1..]);
      assert ps == [ps[0]] + ps[1..];
    }
  }

  // ----- LoginSuccess -----

  function EncodeUuid(text: UuidText, uuid: Bytes, version: int): Bytes
  {
    if version >= 707 then uuid else PutString(text.format(uuid))
  }

  /** Count, entries and, from 776 on, the session id (a random one, `randomId`, when none is given). */
  function EncodeTail(p: LoginSuccess, version: int, randomId: Bytes): Bytes
  {
    var session := if version < 776 then [] else if p.session.Some? then p.session.value else randomId;
    if version >= 707 then EncodeVarInt(AsI32(|p.properties|)) + (EncodeProperties(p.properties) + session) else []
  }

  /** `LoginSuccessPacket::encode_with_version`. */
  function EncodeLoginSuccess(text: UuidText, p: LoginSuccess, version: int, randomId: Bytes): RawPacket
  {
    RawPacket(0x02, EncodeUuid(text, p.uuid, version) + (PutString(p.username) + EncodeTail(p, version, randomId)))
  }

  function ReadUuid(text: UuidText, b: Bytes, version: int): (r: Result<(Bytes, nat)>)
  {
    hide TakeString;
    if version >= 707 then TakeBytes(b, 0, 16)
    else
      var (s, p1) :- TakeString(b, 0);
      match text.parse(s)
      case Some(u) => Ok((u, p1))
      case None => Err(InvalidData)
  }

  function ReadPropertyList(b: Bytes, pos: nat, version: int): (r: Result<(seq<Property>, nat)>)
  {
    hide DecodeVarInt, ReadProperties;
    if version < 759 || pos >= |b| then Ok(([], pos))
    else
      var (count, p1) :- DecodeVarInt(b, pos);
      if count < 0 then Err(InvalidData) else ReadProperties(b, p1, count)
  }

  function ReadSession(b: Bytes, pos: nat, version: int): (r: Result<(Option<Bytes>, nat)>)
  {
    if version < 776 then Ok((None, pos))
    else
      var (id, p1) :- TakeBytes(b, pos, 16);
      Ok((Some(id), p1))
  }

  /** `LoginSuccessPacket::decode_with_version`. */
  function DecodeLoginSuccess(text: UuidText, packet: RawPacket, version: int): Result<LoginSuccess>
  {
    hide ReadUuid, TakeString, ReadPropertyList, ReadSession;
    var b := packet.payload;
    if packet.id != 0x02 then Err(InvalidPacketId(packet.id))
    else
      var (uuid, p1) :- ReadUuid(text, b, version);
      var (username, p2) :- TakeString(b, p1);
      var (properties, p3) :- ReadPropertyList(b, p2, version);
      var (session, p4) :- ReadSession(b, p3, version);
      if p4 < |b| then Err(InvalidData) else Ok(LoginSuccess(uuid, username, properties, session))
  }

  predicate WellFormed(p: LoginSuccess)
  {
    |p.uuid| == 16 && IsText(p.username) && TextProperties(p.properties) && (p.session.Some? ==> |p.session.value| == 16)
  }

  /** What a packet written for `version` decodes to when nothing follows it. */
  function Received(p: LoginSuccess, version: int, randomId: Bytes): Result<LoginSuccess>
  {
    if version < 707 then Ok(p.(properties := [], session := None))
    else if version < 759 then Err(InvalidData)
    else if version < 776 then Ok(p.(session := None))
    else Ok(p.(session := Some(if p.session.Some? then p.session.value else randomId)))
  }

  lemma UuidReads(text: UuidText, b: Bytes, uuid: Bytes, version: int)
    requires text.Lawful() && |uuid| == 16 && At(b, 0, EncodeUuid(text, uuid, version))
    ensures ReadUuid(text, b, version) == Ok((uuid, |EncodeUuid(text, uuid, version)|))
  {
    hide TakeString, PutString;
    if version < 707 {
      StringRoundTrip(b, 0, text.format(uuid));
    }
  }

  /** Reading the tail of a packet for `version`, with `extra` behind it. */
  lemma TailReads(b: Bytes, pos: nat, p: LoginSuccess, version: int, randomId: Bytes, extra: Bytes)
    requires WellFormed(p) && |randomId| == 16
    requires At(b, pos, EncodeTail(p, version, randomId)) && |b| == pos + |EncodeTail(p, version, randomId)| + |extra|
    requires version >= 759
    ensures ReadPropertyList(b, pos, version).Ok? && ReadPropertyList(b, pos, version).value.0 == p.properties
    ensures var end := ReadPropertyList(b, pos, version).value.1; var r := ReadSession(b, end, version);
            r.Ok? && r.value.0 == Received(p, version, randomId).value.session && r.value.1 == |b| - |extra|
  {
    hide At, EncodeVarInt, DecodeVarInt, EncodeProperties, ReadProperties, IsText, TextProperty;
    var count := EncodeVarInt(|p.properties|);
    var session := if version < 776 then [] else if p.session.Some? then p.session.value else randomId;
    AtSplit(b, pos, count, EncodeProperties(p.properties) + session);
    AtSplit(b, pos + |count|, EncodeProperties(p.properties), session);
    VarIntRoundTrip(b, pos, |p.properties|);
    PropertiesRoundTrip(b, pos + |count|, p.properties);
    BytesRoundTrip(b, pos + |count| + |EncodeProperties(p.properties)|, session);
  }

  /**
   * For every version, what an encoded LoginSuccess decodes to: everything from 759 on (the session
   * id exactly from 776), uuid and name before 707, and always an error in between, where the writer
   * emits a property count the reader does not expect. Anything behind the packet is an error.
   */
  lemma LoginSuccessDecodes(text: UuidText, p: LoginSuccess, version: int, randomId: Bytes, extra: Bytes)
    requires text.Lawful() && WellFormed(p) && |randomId| == 16
    ensures var packet := EncodeLoginSuccess(text, p, version, randomId);
            DecodeLoginSuccess(text, RawPacket(packet.id, packet.payload + extra), version) ==
            if extra == [] then Received(p, version, randomId) else Err(InvalidData)
  {
    hide At, EncodeUuid, ReadUuid, PutString, TakeString, EncodeTail, ReadPropertyList, ReadSession, IsText, TextProperties;
    var uuid, name, tail := EncodeUuid(text, p.uuid, version), PutString(p.username), EncodeTail(p, version, randomId);
    var b := (uuid + (name + tail)) + extra;
    assert b == uuid + (name + (tail + extra));
    AtPieces(uuid, name, tail, extra);
    UuidReads(text, b, p.uuid, version);
    StringRoundTrip(b, |uuid|, p.username);
    var pos := |uuid| + |name|;
    if version >= 759 {
      TailReads(b, pos, p, version, randomId, extra);
    } else {
      LegacyTail(b, pos, p, version, randomId);
    }
  }

  /** Before 759 nothing behind the name is read, though from 707 on a property count is written. */
  lemma LegacyTail(b: Bytes, pos: nat, p: LoginSuccess, version: int, randomId: Bytes)
    requires version < 759
    ensures ReadPropertyList(b, pos, version) == Ok(([], pos)) && ReadSession(b, pos, version) == Ok((None, pos))
    ensures if version < 707 then EncodeTail(p, version, randomId) == [] else |EncodeTail(p, version, randomId)| > 0
  {}

  /** From 707 on, the round trip succeeds if and only if the version is at least 759. */
  lemma RoundTripIffModern(text: UuidText, p: LoginSuccess, version: int, randomId: Bytes)
    requires text.Lawful() && WellFormed(p) && |randomId| == 16 && version >= 707
    ensures DecodeLoginSuccess(text, EncodeLoginSuccess(text, p, version, randomId), version).Ok? <==> version >= 759
  {
    hide EncodeLoginSuccess, DecodeLoginSuccess, WellFormed;
    var packet := EncodeLoginSuccess(text, p, version, randomId);
    assert packet.payload + [] == packet.payload && RawPacket(packet.id, packet.payload) == packet;
    LoginSuccessDecodes(text, p, version, randomId, []);
  }

  /** Where the fields of a LoginSuccess lie from 707 on: UUID, name, property count, properties, session id. */
  lemma LoginSuccessLayout(text: UuidText, p: LoginSuccess, version: int, randomId: Bytes)
    requires WellFormed(p) && version >= 707
    ensures var packet := EncodeLoginSuccess(text, p, version, randomId); var b := packet.payload; var n := 16 + |PutString(p.username)|;
            var session := if version < 776 then [] else if p.session.Some? then p.session.value else randomId;
            && packet.id == 2 && At(b, 0, p.uuid) && At(b, 16, PutString(p.username))
            && DecodeVarInt(b, n) == Ok((|p.properties|, n + |EncodeVarInt(|p.properties|)|))
            && b[n + |EncodeVarInt(|p.properties|)|..] == EncodeProperties(p.properties) + session
  {
    hide At, EncodeVarInt, DecodeVarInt, PutString, EncodeProperties, IsText, TextProperty;
    var b := EncodeLoginSuccess(text, p, version, randomId).payload;
    var session := if version < 776 then [] else if p.session.Some? then p.session.value else randomId;
    AtPieces(p.uuid, PutString(p.username), EncodeVarInt(|p.properties|), EncodeProperties(p.properties) + session);
    VarIntRoundTrip(b, 16 + |PutString(p.username)|, |p.properties|);
  }

  // ----- Velocity forwarding -----

  datatype Profile = Profile(id: Bytes, name: Bytes, properties: seq<Property>)

  const VELOCITY_VERSION: i32 := 4

  /** `create_velocity_forwarding_payload`. */
  function VelocityPayload(profile: Profile, ip: Bytes): Bytes
  {
    (EncodeVarInt(VELOCITY_VERSION) + PutString(ip))
    + (profile.id + (PutString(profile.name) + (EncodeVarInt(AsI32(|profile.properties|)) + EncodeProperties(profile.properties))))
  }

  predicate ForwardableProfile(profile: Profile)
  {
    |profile.id| == 16 && IsText(profile.name) && TextProperties(profile.properties)
  }

  /** How a backend reads the payload. */
  function ReadVelocity(b: Bytes): Result<(Bytes, Profile)>
  {
    hide DecodeVarInt, TakeString, ReadProperties;
    var (_, p1) :- DecodeVarInt(b, 0);
    var (ip, p2) :- TakeString(b, p1);
    var (id, p3) :- TakeBytes(b, p2, 16);
    var (name, p4) :- TakeString(b, p3);
    var (count, p5) :- DecodeVarInt(b, p4);
    if count < 0 then Err(InvalidData)
    else
      var (properties, _) :- ReadProperties(b, p5, count);
      Ok((ip, Profile(id, name, properties)))
  }

  lemma VelocityRoundTrip(profile: Profile, ip: Bytes)
    requires ForwardableProfile(profile) && IsText(ip)
    ensures ReadVelocity(VelocityPayload(profile, ip)) == Ok((ip, profile))
  {
    hide At, EncodeVarInt, DecodeVarInt, PutString, TakeString, EncodeProperties, ReadProperties, IsText, TextProperty;
    var b := VelocityPayload(profile, ip);
    var version, count := EncodeVarInt(VELOCITY_VERSION), EncodeVarInt(|profile.properties|);
    var head := version + PutString(ip);
    var list := count + EncodeProperties(profile.properties);
    AtPieces(head, profile.id, PutString(profile.name), list);
    AtSplit(b, 0, version, PutString(ip));
    VarIntRoundTrip(b, 0, VELOCITY_VERSION);
    StringRoundTrip(b, |version|, ip);
    BytesRoundTrip(b, |head|, profile.id);
    StringRoundTrip(b, |head| + 16, profile.name);
    var p := |head| + 16 + |PutString(profile.name)|;
    AtSplit(b, p, count, EncodeProperties(profile.properties));
    VarIntRoundTrip(b, p, |profile.properties|);
    PropertiesRoundTrip(b, p + |count|, profile.properties);
  }

  /** Where the fields of the payload lie: version 4, address, UUID, name, property count and properties. */
  lemma VelocityLayout(profile: Profile, ip: Bytes)
    requires ForwardableProfile(profile)
    ensures var b := VelocityPayload(profile, ip); var p1 := 1 + |PutString(ip)|; var p2 := p1 + 16 + |PutString(profile.name)|;
            && b[0] == 4 && At(b, 1, PutString(ip)) && At(b, p1, profile.id) && At(b, p1 + 16, PutString(profile.name))
            && DecodeVarInt(b, p2) == Ok((|profile.properties|, p2 + |EncodeVarInt(|profile.properties|)|))
            && b[p2 + |EncodeVarInt(|profile.properties|)|..] == EncodeProperties(profile.properties)
  {
    hide At, EncodeVarInt, DecodeVarInt, PutString, EncodeProperties, IsText, TextProperty;
    var b := VelocityPayload(profile, ip);
    assert EncodeVarInt(4) == [4] by { SmallVarInt(4); }
    var count := EncodeVarInt(|profile.properties|);
    var list := count + EncodeProperties(profile.properties);
    AtPieces([4] + PutString(ip), profile.id, PutString(profile.name), list);
    AtSplit(b, 0, [4], PutString(ip));
    AtByte(b, 0, [4], 0);
    var p2 := 1 + |PutString(ip)| + 16 + |PutString(profile.name)|;
    AtSplit(b, p2, count, EncodeProperties(profile.properties));
    VarIntRoundTrip(b, p2, |profile.properties|);
  }

  lemma SmallVarInt(n: nat)
    requires n < 128
    ensures EncodeVarInt(n) == [n]
  {}

  /** Distinct addresses or profiles never share a payload. */
  lemma VelocityPayloadIsInjective(p: Profile, ip: Bytes, q: Profile, jp: Bytes)
    requires ForwardableProfile(p) && IsText(ip) && ForwardableProfile(q) && IsText(jp)
    requires VelocityPayload(p, ip) == VelocityPayload(q, jp)
    ensures p == q && ip == jp
  {
    hide VelocityPayload, ReadVelocity;
    VelocityRoundTrip(p, ip);
    VelocityRoundTrip(q, jp);
  }

  // ----- The loops -----

  /** The property loop of both encoders. */
  method PutProperties(ps: seq<Property>, buf: Bytes) returns (out: Bytes)
    ensures out == buf + EncodeProperties(ps)
  {
    hide EncodeProperty;
    out := buf;
    for i := 0 to |ps|
      invariant out + EncodeProperties(ps[i..]) == buf + EncodeProperties(ps)
    {
      assert ps[i..][1..] == ps[i + 1..];
      assert out + (EncodeProperty(ps[i]) + EncodeProperties(ps[i + 1..])) == (out + EncodeProperty(ps[i])) + EncodeProperties(ps[i + 1..]);
      out := out + EncodeProperty(ps[i]);
    }
    assert out + [] == out;
  }

  ghost function Prepend(ps: seq<Property>, r: Result<(seq<Property>, nat)>): Result<(seq<Property>, nat)>
  {
    match r
    case Ok((more, end)) => Ok((ps + more, end))
    case Err(e) => Err(e)
  }

  lemma PrependStep(ps: seq<Property>, b: Bytes, pos: nat, n: nat)
    requires n > 0
    ensures var r := ReadProperty(b, pos);
            Prepend(ps, ReadProperties(b, pos, n)) ==
            if r.Err? then Err(r.error) else Prepend(ps + [r.value.0], ReadProperties(b, r.value.1, n - 1))
  {
    hide ReadProperty;
    var r := ReadProperty(b, pos);
    if r.Ok? {
      var rest := ReadProperties(b, r.value.1, n - 1);
      if rest.Ok? {
        assert ps + ([r.value.0] + rest.value.0) == (ps + [r.value.0]) + rest.value.0;
      }
    }
  }

  /** The property loop of the decoder. */
  method TakeProperties(b: Bytes, start: nat, n: nat) returns (r: Result<(seq<Property>, nat)>)
    ensures r == ReadProperties(b, start, n)
  {
    hide ReadProperty;
    var ps: seq<Property> := [];
    var pos: nat := start;
    ghost var all := ReadProperties(b, start, n);
    assert all.Ok? ==> [] + all.value.0 == all.value.0;
    for i := 0 to n
      invariant all == Prepend(ps, ReadProperties(b, pos, n - i))
    {
      PrependStep(ps, b, pos, n - i);
      var p := ReadProperty(b, pos);
      if p.Err? {
        return Err(p.error);
      }
      ps, pos := ps + [p.value.0], p.value.1;
    }
    assert ps + [] == ps;
    return Ok((ps, pos));
  }

  /** `LoginSuccessPacket::encode_with_version`, growing one buffer. */
  method WriteLoginSuccess(text: UuidText, p: LoginSuccess, version: int, randomId: Bytes) returns (packet: RawPacket)
    ensures packet == EncodeLoginSuccess(text, p, version, randomId)
  {
    hide EncodeVarInt, PutString, EncodeProperties;
    var uuid := if version >= 707 then p.uuid else PutString(text.format(p.uuid));
    var payload := PutVarInt(AsI32(|p.username|), uuid);
    payload := payload + p.username;
    assert payload == uuid + PutString(p.username) by {
      Associative(uuid, EncodeVarInt(AsI32(|p.username|)), p.username);
      Spelled(p.username);
    }
    if version >= 707 {
      payload := PutVarInt(AsI32(|p.properties|), payload);
      payload := PutProperties(p.properties, payload);
      var session := if version < 776 then [] else if p.session.Some? then p.session.value else randomId;
      payload := payload + session;
      Associative5(uuid, PutString(p.username), EncodeVarInt(AsI32(|p.properties|)), EncodeProperties(p.properties), session);
    } else {
      assert PutString(p.username) + [] == PutString(p.username);
    }
    packet := RawPacket(0x02, payload);
  }

  lemma Spelled(s: Bytes)
    ensures PutString(s) == EncodeVarInt(AsI32(|s|)) + s
  {}

  /** `LoginSuccessPacket::decode_with_version`, advancing one cursor. */
  method ReadLoginSuccess(text: UuidText, packet: RawPacket, version: int) returns (r: Result<LoginSuccess>)
    ensures r == DecodeLoginSuccess(text, packet, version)
  {
    hide ReadUuid, TakeString, DecodeVarInt, ReadProperties;
    var b := packet.payload;
    if packet.id != 0x02 {
      return Err(InvalidPacketId(packet.id));
    }
    var uuid := ReadUuid(text, b, version);
    if uuid.Err? {
      return Err(uuid.error);
    }
    var name := TakeString(b, uuid.value.1);
    if name.Err? {
      return Err(name.error);
    }
    var properties: seq<Property>, cursor: nat := [], name.value.1;
    if version >= 759 && cursor < |b| {
      var count := TakeVarInt(b, cursor);
      if count.Err? {
        return Err(count.error);
      }
      if count.value.0 < 0 {
        return Err(InvalidData);
      }
      var list := TakeProperties(b, count.value.1, count.value.0);
      if list.Err? {
        return Err(list.error);
      }
      properties, cursor := list.value.0, list.value.1;
    }
    var session := ReadSession(b, cursor, version);
    if session.Err? {
      return Err(session.error);
    }
    if session.value.1 < |b| {
      return Err(InvalidData);
    }
    r := Ok(LoginSuccess(uuid.value.0, name.value.0, properties, session.value.0));
  }
}
