/** What the client is sent in place of a backend packet, said of the bytes it can read. */
module Translations {
  import opened Wire
  import opened VarInt
  import opened Fields
  import opened Display
  import opened Routing
  import opened Runs
  import opened CommandTree
  import PluginChannel
  import Respawn
  import CommandInjection

  // ----- Logins -----

  /** A Respawn into the overworld in survival mode, keeping `kept`. */
  ghost predicate IsReset(respawn: RawPacket, kept: byte, version: int)
  {
    var r := Respawn.DecodeRespawn(respawn, version);
    && r.Ok? && CommandInjection.Reads(r.value.dimensionName, "minecraft:overworld") && r.value.dimensionType == r.value.dimensionName
    && r.value.seed == 0 && r.value.gamemode == 0 && r.value.previousGamemode == -1 && !r.value.isDebug && !r.value.isFlat
    && r.value.dataKept == kept
  }

  /** The Respawn keeps all data and decodes to the dimension, seed, game modes and flags of the Login. */
  ghost predicate CarriesLogin(respawn: RawPacket, l: Respawn.Login, version: int)
  {
    Respawn.DecodeRespawn(respawn, version) == Ok(Respawn.RespawnPacket(
      if version >= 766 then l.dimensionName else l.dimensionType, l.dimensionName, l.seed,
      l.gamemode, l.previousGamemode, l.isDebug, l.isFlat, 3))
  }

  /**
   * `respawn` stands for the Login (Play) `login`. Before 764, and for a Login without a readable spawn
   * record, it is a reset; for every well-formed Login it carries that Login's fields, whatever follows them;
   * and from 766 on it is the spawn record byte for byte.
   */
  ghost predicate StandsFor(respawn: RawPacket, login: RawPacket, version: int)
  {
    && respawn.id == Respawn.RespawnId(version)
    && (version < 764 ==> IsReset(respawn, 1, version))
    && (version >= 764 && Respawn.RecordEnd(login.payload, version).Err? ==> IsReset(respawn, 3, version))
    && (version >= 764 ==>
          forall l: Respawn.Login, tail: Bytes
            | Respawn.WellFormed(l) && |l.names| <= 1024 && login.payload == Respawn.EncodeLogin(l, version) + tail
            :: CarriesLogin(respawn, l, version))
    && (version >= 766 && Respawn.RecordEnd(login.payload, version).Ok? ==>
          var start, end := Respawn.SkipLoginHead(login.payload), Respawn.RecordEnd(login.payload, version).value;
          start.Ok? && start.value <= end && respawn.payload == login.payload[start.value..end] + [3])
  }

  lemma ResetDecodes(kept: byte, version: int)
    ensures IsReset(Respawn.EncodeRespawn(Respawn.DefaultReset(kept), version), kept, version)
  {
    hide Respawn.EncodeRespawn, Respawn.DecodeRespawn;
    OverworldIsText();
    Respawn.RespawnRoundTrip(Respawn.DefaultReset(kept), version);
  }

  lemma OverworldIsText()
    ensures IsText(Respawn.OVERWORLD) && CommandInjection.Reads(Respawn.OVERWORLD, "minecraft:overworld")
  {
    hide ValidUtf8;
    assert forall i :: 0 <= i < |Respawn.OVERWORLD| ==> Respawn.OVERWORLD[i] < 128 by { OverworldReads(); }
    OverworldReads();
    PluginChannel.AsciiIsUtf8(Respawn.OVERWORLD);
  }

  lemma OverworldReads()
    ensures CommandInjection.Reads(Respawn.OVERWORLD, "minecraft:overworld")
    ensures forall i :: 0 <= i < |Respawn.OVERWORLD| ==> Respawn.OVERWORLD[i] < 128
  {}

  lemma ExtractedIffRecord(login: Bytes, version: int, kept: byte)
    requires version >= 764
    ensures Respawn.ExtractRespawn(login, version, kept).Ok? <==> Respawn.RecordEnd(login, version).Ok?
    ensures version >= 766 && Respawn.RecordEnd(login, version).Ok? ==>
              var start, end := Respawn.SkipLoginHead(login), Respawn.RecordEnd(login, version).value;
              && start.Ok? && start.value <= end
              && Respawn.ExtractRespawn(login, version, kept) == Ok(RawPacket(Respawn.RespawnId(version), login[start.value..end] + [kept]))
  {
    hide Respawn.SkipLoginHead, Respawn.ReadSpawnInfo, Respawn.ReadLegacySpawnInfo, Respawn.EncodeRespawn;
    if Respawn.ExtractRespawn(login, version, kept).Ok? {
      Respawn.ExtractedHasEnd(login, version, kept);
    }
    if Respawn.RecordEnd(login, version).Ok? && version < 766 {
      Respawn.KeptDoesNotMatter(login, Respawn.SkipLoginHead(login).value, kept);
    }
  }

  /** The Respawn made for a Login stands for it. */
  lemma RespawnStandsForLogin(login: RawPacket, version: int)
    ensures StandsFor(RespawnFor(login, version), login, version)
  {
    hide Respawn.ExtractRespawn, Respawn.EncodeRespawn, Respawn.DecodeRespawn, Respawn.RecordEnd, Respawn.EncodeLogin, Respawn.SkipLoginHead,
         Respawn.WellFormed, IsReset, Respawn.RespawnId;
    var respawn := RespawnFor(login, version);
    RespawnForId(login, version);
    ResetDecodes(DataKept(version), version);
    if version < 764 {
      OldLoginsReset(login.payload, version, 1);
    } else {
      ExtractedIffRecord(login.payload, version, 3);
      forall l: Respawn.Login, tail: Bytes
        | Respawn.WellFormed(l) && |l.names| <= 1024 && login.payload == Respawn.EncodeLogin(l, version) + tail
        ensures CarriesLogin(respawn, l, version)
      {
        Respawn.ExtractionCarriesTheLogin(l, tail, version, 3);
      }
    }
  }

  lemma OldLoginsReset(login: Bytes, version: int, kept: byte)
    requires version < 764
    ensures Respawn.ExtractRespawn(login, version, kept) == Ok(Respawn.EncodeRespawn(Respawn.DefaultReset(kept), version))
  {}

  // ----- Command trees -----

  /**
   * `out` is the command tree `p` with the proxy's commands: for every client, it reads as the grafted tree
   * exactly when `p` reads as a graftable one; and it is `p` itself when there is nothing to rewrite.
   */
  ghost predicate GraftOf(env: Env, out: RawPacket, p: RawPacket)
  {
    var literals := CommandInjection.Literals(env.servers, env.normalize);
    && out.id == p.id
    && (CommandInjection.CutPayload(p.payload).Err? || CommandInjection.CutPayload(p.payload).value.None? ==> out == p)
    && forall layout: Layout, tree: Tree, first: nat, second: nat, end: nat
         | layout.Lawful() && CommandInjection.Declares(layout, p.payload, tree, first, second, end)
         :: second <= end < |p.payload|
            && (ReadTree(layout, out.payload) == Ok(CommandInjection.Graft(tree, literals))
                <==> CommandInjection.Graftable(p.payload, tree, second, end, literals))
  }

  lemma InjectedIsGraft(env: Env, p: RawPacket)
    requires CommandInjection.IsDeclareCommands(p.id, env.version)
    ensures var r := CommandInjection.Inject(p, env.version, env.servers, env.normalize);
            GraftOf(env, if r.Ok? then r.value else p, p)
  {
    hide CommandInjection.CutPayload, CommandInjection.Reassemble, CommandInjection.Literals, ReadTree, CommandInjection.Graft,
         CommandInjection.Graftable, CommandInjection.Declares;
    var r := CommandInjection.Inject(p, env.version, env.servers, env.normalize);
    forall layout: Layout, tree: Tree, first: nat, second: nat, end: nat
      | layout.Lawful() && CommandInjection.Declares(layout, p.payload, tree, first, second, end)
      ensures second <= end < |p.payload|
      ensures r.Ok?
      ensures var literals := CommandInjection.Literals(env.servers, env.normalize);
              1 <= |tree.nodes| < 0x8000_0000
              && (ReadTree(layout, r.value.payload) == Ok(CommandInjection.Graft(tree, literals))
                  <==> CommandInjection.Graftable(p.payload, tree, second, end, literals))
    {
      CommandInjection.DeclaredHasNodes(layout, p.payload, tree, first, second, end);
      CommandInjection.InjectionGraftsTheTreeIff(layout, p, env.version, env.servers, env.normalize, tree, first, second, end);
    }
  }

  // ----- Any packet -----

  /**
   * `e` is what the client is to get for the packet `p` of connection `k`; `first` says that this is a later
   * connection from which no Login came before.
   */
  ghost predicate Conveys(env: Env, first: bool, p: RawPacket, k: nat, e: Sent)
  {
    if IsLoginPlay(p.id, env.version) && first then e.origin == Translated(k) && StandsFor(e.packet, p, env.version)
    else if CommandInjection.IsDeclareCommands(p.id, env.version) then e.origin == Relayed(k) && GraftOf(env, e.packet, p)
    else e == Sent(p, Relayed(k))
  }

  lemma ForwardedConveys(env: Env, first: bool, p: RawPacket, k: nat)
    ensures Conveys(env, first, p, k, Forwarded(env, first, p, k))
  {
    hide RespawnFor, StandsFor, GraftOf, CommandInjection.Inject, IsLoginPlay, CommandInjection.IsDeclareCommands;
    if IsLoginPlay(p.id, env.version) {
      RespawnStandsForLogin(p, env.version);
      LoginIsNoTree(p.id, env.version);
    } else if CommandInjection.IsDeclareCommands(p.id, env.version) {
      InjectedIsGraft(env, p);
    }
  }

  lemma LoginIsNoTree(id: i32, version: int)
    requires IsLoginPlay(id, version)
    ensures !CommandInjection.IsDeclareCommands(id, version)
  {
    if CommandInjection.IsDeclareCommands(id, version) {
      CollisionHasCause(LoginPlay, DeclareCommands, id, version);
    }
  }
}
