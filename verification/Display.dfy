/** What the client displays because of packets it was sent, and the proxy's shadow of it. */
module Display {
  import opened Wire
  import opened VarInt
  import opened Fields
  import Respawn
  import CommandInjection

  // ----- Packet ids -----

  function BossBarId(version: int): i32
  {
    if version >= 776 then 0x09
    else if version >= 764 then 0x0A
    else if version >= 762 then 0x0B
    else 0x0A
  }

  function ObjectiveId(version: int): i32
  {
    if version >= 776 then 0x6A
    else if version >= 768 then 0x64
    else if version >= 766 then 0x5E
    else if version >= 765 then 0x5C
    else if version >= 764 then 0x5A
    else if version >= 762 then 0x58
    else if version == 761 then 0x54
    else 0x56
  }

  function DisplaySlotId(version: int): i32
  {
    if version >= 776 then 0x62
    else if version >= 768 then 0x5C
    else if version >= 766 then 0x57
    else if version >= 765 then 0x55
    else if version >= 764 then 0x53
    else if version >= 762 then 0x51
    else if version == 761 then 0x4D
    else 0x4F
  }

  function StopSoundId(version: int): i32
  {
    if version >= 776 then 0x77
    else if version >= 768 then 0x71
    else if version >= 766 then 0x6A
    else if version >= 765 then 0x68
    else if version >= 764 then 0x66
    else if version >= 762 then 0x63
    else if version == 761 then 0x5F
    else if version >= 759 then 0x61
    else 0x66
  }

  /** The higher of the two sound ids; the other one is just below. */
  function SoundId(version: int): i32
  {
    if version >= 776 then 0x75
    else if version >= 768 then 0x6F
    else if version >= 766 then 0x68
    else if version >= 765 then 0x66
    else if version >= 764 then 0x64
    else 0x61
  }

  predicate IsSound(id: int, version: int) { id == SoundId(version) || id == SoundId(version) - 1 }

  function CloseContainerId(version: int): i32
  {
    if version >= 776 then 0x11
    else if version >= 764 then 0x12
    else if version >= 762 then 0x11
    else if version == 761 then 0x0F
    else if version >= 759 then 0x10
    else 0x12
  }

  predicate IsOpenWindow(id: int, version: int)
  {
    if version >= 776 then id == 0x3B
    else if version >= 768 then id == 0x35
    else if version >= 766 then id == 0x33
    else if version >= 764 then id == 0x31
    else if version >= 762 then id == 0x30
    else if version == 761 then id == 0x2D
    else id == 0x2E
  }

  function LoginPlayId(version: int): i32
  {
    if version >= 776 then 0x31
    else if version >= 768 then 0x2C
    else if version >= 766 then 0x2B
    else if version >= 764 then 0x29
    else if version >= 762 then 0x28
    else if version == 761 then 0x24
    else if version >= 759 then 0x25
    else if version >= 755 then 0x26
    else if version >= 735 then 0x24
    else if version >= 573 then 0x26
    else if version >= 393 then 0x25
    else 0x23
  }

  predicate IsLoginPlay(id: int, version: int) { id == LoginPlayId(version) }

  function SystemChatId(version: int): i32
  {
    if version >= 776 then 0x79
    else if version >= 768 then 0x73
    else if version >= 766 then 0x6C
    else if version >= 764 then 0x69
    else if version == 763 then 0x67
    else if version == 762 then 0x64
    else if version == 761 then 0x60
    else if version >= 759 then 0x5F
    else 0x69
  }

  function TabResponseId(version: int): i32
  {
    if version >= 776 then 0x0F else if version >= 764 then 0x10 else 0x0F
  }

  /** The disconnect sent at shutdown: the Configuration ids from 764 on. */
  function ShutdownId(version: int): i32
  {
    if version >= 766 then 0x02 else if version >= 764 then 0x01 else 0x1B
  }

  predicate IsPlayDisconnect(id: int) { id == 0x1A || id == 0x1B }

  /** The packet classes the proxy tells apart among clientbound ids. */
  datatype Class =
    | BossBar | Objective | DisplaySlot | StopSound | Sound | CloseContainer | OpenWindow
    | LoginPlay | RespawnClass | DeclareCommands | SystemChat | TabResponse | PlayDisconnect | ShutdownNotice

  predicate Has(c: Class, id: i32, version: int)
  {
    match c
    case BossBar => id == BossBarId(version)
    case Objective => id == ObjectiveId(version)
    case DisplaySlot => id == DisplaySlotId(version)
    case StopSound => id == StopSoundId(version)
    case Sound => IsSound(id, version)
    case CloseContainer => id == CloseContainerId(version)
    case OpenWindow => IsOpenWindow(id, version)
    case LoginPlay => IsLoginPlay(id, version)
    case RespawnClass => id == Respawn.RespawnId(version)
    case DeclareCommands => CommandInjection.IsDeclareCommands(id, version)
    case SystemChat => id == SystemChatId(version)
    case TabResponse => id == TabResponseId(version)
    case PlayDisconnect => IsPlayDisconnect(id)
    case ShutdownNotice => id == ShutdownId(version)
  }

  /** From protocol 764 on no id belongs to two classes. */
  lemma ClassesAreDisjoint(c: Class, d: Class, id: i32, version: int)
    requires version >= 764 && Has(c, id, version) && Has(d, id, version)
    ensures c == d
  {}

  /** The classes whose misreading would matter: what is tracked, and Login (Play). */
  predicate Watched(c: Class)
  {
    c.BossBar? || c.Objective? || c.DisplaySlot? || c.StopSound? || c.Sound? || c.LoginPlay?
  }

  /** The pairs of classes that share an id in spite of that. */
  predicate Collide(c: Class, d: Class, version: int)
  {
    || (759 <= version <= 760 && ((c.Sound? && d.StopSound?) || (c.StopSound? && d.Sound?)))
    || (version == 761 && c.Sound? && d.SystemChat?)
  }

  lemma CollisionHasCause(c: Class, d: Class, id: i32, version: int)
    requires Watched(c) && Has(c, id, version) && Has(d, id, version)
    ensures c == d || Collide(c, d, version)
  {}

  /** In every version, a watched class shares an id with another class exactly in the listed cases. */
  lemma WatchedClassesCollideIff(c: Class, d: Class, version: int)
    requires Watched(c)
    ensures (exists id: i32 :: Has(c, id, version) && Has(d, id, version)) <==> c == d || Collide(c, d, version)
  {
    if c == d || Collide(c, d, version) {
      var id := WatchedId(c, version);
      assert Has(c, id, version) && Has(d, id, version);
    }
    if id: i32 :| Has(c, id, version) && Has(d, id, version) {
      CollisionHasCause(c, d, id, version);
    }
  }

  /** An id of a watched class, shared with the class it collides with. */
  function WatchedId(c: Class, version: int): i32
    requires Watched(c)
  {
    match c
    case BossBar => BossBarId(version)
    case Objective => ObjectiveId(version)
    case DisplaySlot => DisplaySlotId(version)
    case StopSound => StopSoundId(version)
    case Sound => if version == 761 then SystemChatId(version) else SoundId(version)
    case LoginPlay => LoginPlayId(version)
  }

  /** The ids of sounds stand for nothing else. */
  predicate SoundsAreUnmistakable(version: int) { version < 759 || version > 761 }

  lemma SoundsAreUnmistakableIff(version: int)
    ensures SoundsAreUnmistakable(version) <==> forall c: Class, id: i32 :: Has(Sound, id, version) && Has(c, id, version) ==> c == Sound
  {
    if SoundsAreUnmistakable(version) {
      forall c: Class, id: i32 | Has(Sound, id, version) && Has(c, id, version) ensures c == Sound {
        CollisionHasCause(Sound, c, id, version);
      }
    } else {
      assert Has(if version == 761 then SystemChat else StopSound, WatchedId(Sound, version), version);
    }
  }

  // ----- The shadow -----

  datatype Shadow = Shadow(bars: set<Bytes>, objectives: set<Bytes>, slots: set<i32>, audio: bool)

  const NOTHING := Shadow({}, {}, {}, false)

  function DecodeBossBar(b: Bytes): Result<(Bytes, i32)>
  {
    var (uuid, p1) :- TakeBytes(b, 0, 16);
    var (action, _) :- DecodeVarInt(b, p1);
    Ok((uuid, action))
  }

  function DecodeObjective(b: Bytes): Result<(Bytes, byte)>
  {
    var (name, p1) :- TakeString(b, 0);
    var (action, _) :- TakeByte(b, p1);
    Ok((name, action))
  }

  function DecodeDisplaySlot(b: Bytes): Result<(i32, Bytes)>
  {
    var (position, p1) :- DecodeVarInt(b, 0);
    var (name, _) :- TakeString(b, p1);
    Ok((position, name))
  }

  /** What a packet does to one kind of displayed thing: shows it, removes it, or neither. */
  datatype Effect<T> = Shows(x: T) | Removes(x: T) | Neither

  function BarEffect(p: RawPacket, version: int): Effect<Bytes>
  {
    if p.id != BossBarId(version) then Neither
    else
      match DecodeBossBar(p.payload)
      case Ok((uuid, action)) => if action == 0 then Shows(uuid) else if action == 1 then Removes(uuid) else Neither
      case Err(_) => Neither
  }

  function ObjectiveEffect(p: RawPacket, version: int): Effect<Bytes>
  {
    if p.id != ObjectiveId(version) then Neither
    else
      match DecodeObjective(p.payload)
      case Ok((name, action)) => if action == 0 then Shows(name) else if action == 1 then Removes(name) else Neither
      case Err(_) => Neither
  }

  function SlotEffect(p: RawPacket, version: int): Effect<i32>
  {
    if p.id != DisplaySlotId(version) then Neither
    else
      match DecodeDisplaySlot(p.payload)
      case Ok((position, name)) => if name == [] then Removes(position) else Shows(position)
      case Err(_) => Neither
  }

  function Apply<T(==)>(s: set<T>, e: Effect<T>): set<T>
  {
    match e
    case Shows(x) => s + {x}
    case Removes(x) => s - {x}
    case Neither => s
  }

  function ApplySound(audio: bool, p: RawPacket, version: int): bool
  {
    if IsSound(p.id, version) then true
    else if p.id == StopSoundId(version) && p.payload != [] && p.payload[0] == 0 then false
    else audio
  }

  /** The tracking done on every backend packet. */
  function Track(s: Shadow, p: RawPacket, version: int): Shadow
  {
    Shadow(Apply(s.bars, BarEffect(p, version)),
           Apply(s.objectives, ObjectiveEffect(p, version)),
           Apply(s.slots, SlotEffect(p, version)),
           ApplySound(s.audio, p, version))
  }

  /** What a client that was sent exactly `log` displays. */
  function Replay(log: seq<RawPacket>, version: int): Shadow
  {
    if log == [] then NOTHING else Track(Replay(log[..|log| - 1], version), log[|log| - 1], version)
  }

  lemma ReplayAppend(log: seq<RawPacket>, p: RawPacket, version: int)
    ensures Replay(log + [p], version) == Track(Replay(log, version), p, version)
  {
    assert (log + [p])[..|log|] == log;
  }

  // ----- What replaying means, without folding -----

  /** Some packet shows `x` and no later one removes it. */
  ghost predicate LastShown<T(!new)>(effects: seq<Effect<T>>, x: T)
  {
    exists i :: 0 <= i < |effects| && effects[i] == Shows(x) && forall j :: i < j < |effects| ==> effects[j] != Removes(x)
  }

  function Fold<T(==)>(effects: seq<Effect<T>>): set<T>
  {
    if effects == [] then {} else Apply(Fold(effects[..|effects| - 1]), effects[|effects| - 1])
  }

  lemma {:induction false} FoldIsLastShown<T(!new)>(effects: seq<Effect<T>>, x: T)
    ensures x in Fold(effects) <==> LastShown(effects, x)
  {
    if effects != [] {
      var n := |effects| - 1;
      var front := effects[..n];
      FoldIsLastShown(front, x);
      if LastShown(front, x) && effects[n] != Removes(x) {
        var i :| 0 <= i < |front| && front[i] == Shows(x) && forall j :: i < j < |front| ==> front[j] != Removes(x);
        assert effects[i] == Shows(x) && forall j :: i < j < |effects| ==> effects[j] != Removes(x);
      }
      if LastShown(effects, x) && effects[n] != Shows(x) {
        var i :| 0 <= i < |effects| && effects[i] == Shows(x) && forall j :: i < j < |effects| ==> effects[j] != Removes(x);
        assert front[i] == Shows(x) && forall j :: i < j < |front| ==> front[j] != Removes(x);
      }
    }
  }

  function Bars(log: seq<RawPacket>, version: int): seq<Effect<Bytes>>
  {
    seq(|log|, i requires 0 <= i < |log| => BarEffect(log[i], version))
  }

  function Objectives(log: seq<RawPacket>, version: int): seq<Effect<Bytes>>
  {
    seq(|log|, i requires 0 <= i < |log| => ObjectiveEffect(log[i], version))
  }

  function Slots(log: seq<RawPacket>, version: int): seq<Effect<i32>>
  {
    seq(|log|, i requires 0 <= i < |log| => SlotEffect(log[i], version))
  }

  /** Audio as a displayed thing: any sound starts it, a stop-all ends it. */
  function SoundEffect(p: RawPacket, version: int): Effect<()>
  {
    if IsSound(p.id, version) then Shows(())
    else if p.id == StopSoundId(version) && p.payload != [] && p.payload[0] == 0 then Removes(())
    else Neither
  }

  function Sounds(log: seq<RawPacket>, version: int): seq<Effect<()>>
  {
    seq(|log|, i requires 0 <= i < |log| => SoundEffect(log[i], version))
  }

  lemma {:induction false} AudioIsFold(log: seq<RawPacket>, version: int)
    ensures Replay(log, version).audio <==> () in Fold(Sounds(log, version))
  {
    hide BarEffect, ObjectiveEffect, SlotEffect, IsSound, StopSoundId;
    if log != [] {
      var n := |log| - 1;
      AudioIsFold(log[..n], version);
      assert Sounds(log, version)[..n] == Sounds(log[..n], version);
    }
  }

  lemma {:induction false} ReplayIsFold(log: seq<RawPacket>, version: int)
    ensures Replay(log, version).bars == Fold(Bars(log, version))
    ensures Replay(log, version).objectives == Fold(Objectives(log, version))
    ensures Replay(log, version).slots == Fold(Slots(log, version))
  {
    hide BarEffect, ObjectiveEffect, SlotEffect;
    if log != [] {
      var n := |log| - 1;
      ReplayIsFold(log[..n], version);
      assert Bars(log, version)[..n] == Bars(log[..n], version);
      assert Objectives(log, version)[..n] == Objectives(log[..n], version);
      assert Slots(log, version)[..n] == Slots(log[..n], version);
    }
  }

  /** A bar, objective, slot or sound is present exactly when the last packet deciding it showed it. */
  lemma ReplayMeaning(log: seq<RawPacket>, version: int, bar: Bytes, objective: Bytes, slot: i32)
    ensures bar in Replay(log, version).bars <==> LastShown(Bars(log, version), bar)
    ensures objective in Replay(log, version).objectives <==> LastShown(Objectives(log, version), objective)
    ensures slot in Replay(log, version).slots <==> LastShown(Slots(log, version), slot)
    ensures Replay(log, version).audio <==> LastShown(Sounds(log, version), ())
  {
    hide Replay, Fold, Bars, Objectives, Slots, Sounds, LastShown;
    ReplayIsFold(log, version);
    AudioIsFold(log, version);
    FoldIsLastShown(Sounds(log, version), ());
    FoldIsLastShown(Bars(log, version), bar);
    FoldIsLastShown(Objectives(log, version), objective);
    FoldIsLastShown(Slots(log, version), slot);
  }

  // ----- The packets that undo what is displayed -----

  function CloseContainerPacket(window: byte, version: int): RawPacket { RawPacket(CloseContainerId(version), [window]) }

  function StopAllSounds(version: int): RawPacket { RawPacket(StopSoundId(version), [0]) }

  function RemoveObjective(name: Bytes, version: int): RawPacket { RawPacket(ObjectiveId(version), PutString(name) + [1]) }

  function ClearSlot(position: i32, version: int): RawPacket
  {
    RawPacket(DisplaySlotId(version), EncodeVarInt(position) + PutString([]))
  }

  function RemoveBar(uuid: Bytes, version: int): RawPacket { RawPacket(BossBarId(version), uuid + EncodeVarInt(1)) }

  /** A packet outside the tracked classes changes nothing that is displayed. */
  lemma UntrackedChangesNothing(s: Shadow, p: RawPacket, version: int)
    requires !Has(BossBar, p.id, version) && !Has(Objective, p.id, version) && !Has(DisplaySlot, p.id, version)
    requires !Has(Sound, p.id, version) && !Has(StopSound, p.id, version)
    ensures Track(s, p, version) == s
  {}

  /** The stop-all packet counts as a sound at exactly protocols 759 and 760, and silences everywhere else. */
  lemma StopAllSilencesIff(s: Shadow, version: int)
    ensures Track(s, StopAllSounds(version), version) == s.(audio := 759 <= version <= 760)
  {
    hide BossBarId, ObjectiveId, DisplaySlotId;
    WatchedIsNoOther(StopSound, StopSoundId(version), version);
  }

  lemma RemoveObjectiveRemoves(s: Shadow, name: Bytes, version: int)
    requires IsText(name)
    ensures Track(s, RemoveObjective(name, version), version) == s.(objectives := s.objectives - {name})
  {
    hide TakeString, PutString, IsText;
    var p := RemoveObjective(name, version);
    AtSelf(PutString(name), [1]);
    StringRoundTrip(p.payload, 0, name);
    assert ObjectiveEffect(p, version) == Removes(name);
    WatchedIsNoOther(Objective, p.id, version);
  }

  lemma ClearSlotClears(s: Shadow, position: i32, version: int)
    ensures Track(s, ClearSlot(position, version), version) == s.(slots := s.slots - {position})
  {
    hide TakeString, PutString, EncodeVarInt, DecodeVarInt;
    var p := ClearSlot(position, version);
    AtPair(EncodeVarInt(position), PutString([]));
    VarIntRoundTrip(p.payload, 0, position);
    StringRoundTrip(p.payload, |EncodeVarInt(position)|, []);
    assert SlotEffect(p, version) == Removes(position);
    WatchedIsNoOther(DisplaySlot, p.id, version);
  }

  lemma RemoveBarRemoves(s: Shadow, uuid: Bytes, version: int)
    requires |uuid| == 16
    ensures Track(s, RemoveBar(uuid, version), version) == s.(bars := s.bars - {uuid})
  {
    hide EncodeVarInt, DecodeVarInt;
    var p := RemoveBar(uuid, version);
    AtPair(uuid, EncodeVarInt(1));
    BytesRoundTrip(p.payload, 0, uuid);
    VarIntRoundTrip(p.payload, 16, 1);
    assert BarEffect(p, version) == Removes(uuid);
    WatchedIsNoOther(BossBar, p.id, version);
  }

  lemma AtPair(x: Bytes, y: Bytes)
    ensures At(x + y, 0, x) && At(x + y, |x|, y)
  {}

  /** An id of one class is of no watched one, collisions apart. */
  lemma WatchedIsNoOther(c: Class, id: i32, version: int)
    requires Has(c, id, version)
    ensures forall d :: Watched(d) && Has(d, id, version) ==> d == c || Collide(d, c, version)
  {
    hide Has, Collide;
    forall d | Watched(d) && Has(d, id, version) ensures d == c || Collide(d, c, version) {
      CollisionHasCause(d, c, id, version);
    }
  }

  // ----- What packets do to the display, by their layout -----

  /** A boss bar packet: UUID, action, and whatever the action needs. Action 0 shows, 1 removes. */
  lemma BarEffectIs(id: i32, uuid: Bytes, action: i32, rest: Bytes, version: int)
    requires |uuid| == 16
    ensures BarEffect(RawPacket(id, uuid + (EncodeVarInt(action) + rest)), version) ==
            if id != BossBarId(version) then Neither
            else if action == 0 then Shows(uuid) else if action == 1 then Removes(uuid) else Neither
  {
    hide EncodeVarInt, DecodeVarInt, BossBarId;
    var b := uuid + (EncodeVarInt(action) + rest);
    AtPair(uuid, EncodeVarInt(action) + rest);
    AtSplit(b, 16, EncodeVarInt(action), rest);
    BytesRoundTrip(b, 0, uuid);
    VarIntRoundTrip(b, 16, action);
  }

  /** An objective packet: name, action, and whatever the action needs. Action 0 creates, 1 removes. */
  lemma ObjectiveEffectIs(id: i32, name: Bytes, action: byte, rest: Bytes, version: int)
    requires IsText(name)
    ensures ObjectiveEffect(RawPacket(id, PutString(name) + ([action] + rest)), version) ==
            if id != ObjectiveId(version) then Neither
            else if action == 0 then Shows(name) else if action == 1 then Removes(name) else Neither
  {
    hide PutString, TakeString, IsText, ObjectiveId;
    AtPair(PutString(name), [action] + rest);
    StringRoundTrip(PutString(name) + ([action] + rest), 0, name);
  }

  /** A display slot packet: position and objective name. A name shows, the empty name clears. */
  lemma SlotEffectIs(id: i32, position: i32, name: Bytes, rest: Bytes, version: int)
    requires IsText(name)
    ensures SlotEffect(RawPacket(id, EncodeVarInt(position) + (PutString(name) + rest)), version) ==
            if id != DisplaySlotId(version) then Neither else if name == [] then Removes(position) else Shows(position)
  {
    hide PutString, TakeString, IsText, EncodeVarInt, DecodeVarInt, DisplaySlotId;
    var b := EncodeVarInt(position) + (PutString(name) + rest);
    AtPair(EncodeVarInt(position), PutString(name) + rest);
    AtSplit(b, |EncodeVarInt(position)|, PutString(name), rest);
    VarIntRoundTrip(b, 0, position);
    StringRoundTrip(b, |EncodeVarInt(position)|, name);
  }

  // ----- Mirroring -----

  /**
   * `s` agrees with what the client displays, `r`. Where the ids of sounds stand for other packets too,
   * the client may take something for a sound that the proxy does not.
   */
  predicate Mirrored(s: Shadow, r: Shadow, version: int)
  {
    && s.bars == r.bars && s.objectives == r.objectives && s.slots == r.slots
    && (s.audio ==> r.audio) && (SoundsAreUnmistakable(version) ==> s.audio == r.audio)
  }

  lemma TrackKeepsMirrored(s: Shadow, r: Shadow, p: RawPacket, version: int)
    requires Mirrored(s, r, version)
    ensures Mirrored(Track(s, p, version), Track(r, p, version), version)
  {
    hide BarEffect, ObjectiveEffect, SlotEffect, IsSound, StopSoundId;
  }

  // ----- What the proxy ever tracks is well formed -----

  /** Tracked names are text and tracked bar ids are 16 bytes: what the decoders produce. */
  ghost predicate WellFormedShadow(s: Shadow)
  {
    (forall n :: n in s.objectives ==> IsText(n)) && (forall u :: u in s.bars ==> |u| == 16)
  }

  lemma TrackKeepsWellFormed(s: Shadow, p: RawPacket, version: int)
    requires WellFormedShadow(s)
    ensures WellFormedShadow(Track(s, p, version))
  {
    hide TakeString, DecodeVarInt, IsText;
  }
}
