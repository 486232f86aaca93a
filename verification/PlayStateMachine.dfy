/** The state machine as it is written: an object whose methods update its fields, proved against Routing. */
module PlayStateMachines {
  import opened Wire
  import opened VarInt
  import opened Fields
  import opened Codec
  import opened Display
  import opened PluginChannel
  import opened Routing
  import opened Transfers
  import opened SessionTheorems
  import Registry
  import Respawn
  import CommandInjection

  class PlayStateMachine {
    const env: Env

    var currentServer: Bytes
    var serverTransferred: bool
    var openContainerId: Option<byte>
    var hasActiveAudio: bool
    var activeBossBars: set<Bytes>
    var activeObjectives: set<Bytes>
    var activeDisplaySlots: set<i32>
    var clientThreshold: Option<nat>
    var backendThreshold: Option<nat>
    var backend: Option<nat>
    var registryCache: Registry.Cache
    var running: bool
    var world: World

    /** The state these fields stand for. */
    function Abs(): State
      reads this
    {
      State(currentServer, serverTransferred, openContainerId,
            Shadow(activeBossBars, activeObjectives, activeDisplaySlots, hasActiveAudio),
            clientThreshold, backendThreshold, backend, registryCache, running, world)
    }

    /** `with_thresholds`. */
    constructor (env: Env, server: Bytes, client: Option<nat>, backend: Option<nat>, cache: Registry.Cache)
      ensures this.env == env && Abs() == Start(server, client, backend, cache)
    {
      this.env := env;
      currentServer, serverTransferred, openContainerId := server, false, None;
      hasActiveAudio, activeBossBars, activeObjectives, activeDisplaySlots := false, {}, {}, {};
      clientThreshold, backendThreshold, this.backend := client, backend, Some(0);
      registryCache, running := cache, true;
      world := World([], [], true, 0, 0, [Conn(server, backend, [], [], true)], [], [], 0, 0);
    }

    // ----- Writing -----

    /** `write_packet_with_compression` on the client stream. */
    method WriteClient(p: RawPacket, origin: Origin) returns (ok: bool)
      modifies this`world
      ensures (Abs(), ok) == SendClient(env, old(Abs()), p, origin)
    {
      ok := env.clientTakes(world.clientWrites);
      if ok {
        var wire := EncodePacket(env.zlib, p, clientThreshold);
        world := world.(clientWrites := world.clientWrites + 1, clientLog := world.clientLog + [Sent(p, origin)],
                        clientWire := world.clientWire + wire);
      } else {
        world := world.(clientWrites := world.clientWrites + 1, clientIntact := false);
      }
    }

    /** A client write whose outcome is ignored. */
    method TryWriteClient(p: RawPacket)
      modifies this`world
      ensures Abs() == Send(env, old(Abs()), p)
    {
      var _ := WriteClient(p, FromProxy);
    }

    /** `write_packet_with_compression` on the current backend. */
    method WriteBackend(p: RawPacket) returns (ok: bool)
      modifies this`world
      ensures (Abs(), ok) == SendBackend(env, old(Abs()), p)
    {
      if backend.None? || backend.value >= |world.conns| {
        return true;
      }
      var k := backend.value;
      var conn := world.conns[k];
      ok := env.backendTakes(world.backendWrites);
      if ok {
        var wire := EncodePacket(env.zlib, p, backendThreshold);
        conn := conn.(sent := conn.sent + [p], wire := conn.wire + wire);
      } else {
        conn := conn.(intact := false);
      }
      world := world.(backendWrites := world.backendWrites + 1, conns := world.conns[k := conn]);
    }

    // ----- Teardown -----

    /** The loop draining the scoreboard objectives. */
    method DrainObjectives(n: nat)
      modifies this`activeObjectives, this`world
      ensures activeObjectives == {}
      ensures Abs() == SendAll(env, old(Abs()).(shadow := old(Abs()).shadow.(objectives := {})),
                               ObjectiveRemovals(env.objectiveOrder(n, old(activeObjectives)), env.version))
    {
      hide Send, RemoveObjective;
      var names := env.objectiveOrder(n, activeObjectives);
      activeObjectives := {};
      ghost var start, ps := Abs(), ObjectiveRemovals(names, env.version);
      assert ps[0..] == ps;
      for i := 0 to |names|
        invariant activeObjectives == {} && SendAll(env, Abs(), ps[i..]) == SendAll(env, start, ps)
      {
        assert ps[i..][1..] == ps[i + 1..];
        TryWriteClient(RemoveObjective(names[i], env.version));
      }
    }

    /** The loop draining the display slots. */
    method DrainDisplaySlots(n: nat)
      modifies this`activeDisplaySlots, this`world
      ensures activeDisplaySlots == {}
      ensures Abs() == SendAll(env, old(Abs()).(shadow := old(Abs()).shadow.(slots := {})),
                               SlotClears(env.slotOrder(n, old(activeDisplaySlots)), env.version))
    {
      hide Send, ClearSlot;
      var slots := env.slotOrder(n, activeDisplaySlots);
      activeDisplaySlots := {};
      ghost var start, ps := Abs(), SlotClears(slots, env.version);
      assert ps[0..] == ps;
      for i := 0 to |slots|
        invariant activeDisplaySlots == {} && SendAll(env, Abs(), ps[i..]) == SendAll(env, start, ps)
      {
        assert ps[i..][1..] == ps[i + 1..];
        TryWriteClient(ClearSlot(slots[i], env.version));
      }
    }

    /** The loop draining the boss bars. */
    method DrainBossBars(n: nat)
      modifies this`activeBossBars, this`world
      ensures activeBossBars == {}
      ensures Abs() == SendAll(env, old(Abs()).(shadow := old(Abs()).shadow.(bars := {})),
                               BarRemovals(env.barOrder(n, old(activeBossBars)), env.version))
    {
      hide Send, RemoveBar;
      var bars := env.barOrder(n, activeBossBars);
      activeBossBars := {};
      ghost var start, ps := Abs(), BarRemovals(bars, env.version);
      assert ps[0..] == ps;
      for i := 0 to |bars|
        invariant activeBossBars == {} && SendAll(env, Abs(), ps[i..]) == SendAll(env, start, ps)
      {
        assert ps[i..][1..] == ps[i + 1..];
        TryWriteClient(RemoveBar(bars[i], env.version));
      }
    }

    /** Closes an open container and stops audio. */
    method CloseAndSilence()
      modifies this`openContainerId, this`hasActiveAudio, this`world
      ensures Abs() == SendAll(env, old(Abs()).(openContainer := None, shadow := old(Abs()).shadow.(audio := false)),
                               QuietPackets(env, old(Abs())))
    {
      hide Send, CloseContainerPacket, StopAllSounds;
      ghost var s0 := Abs();
      ghost var close := if s0.openContainer.Some? then [CloseContainerPacket(s0.openContainer.value, env.version)] else [];
      if openContainerId.Some? {
        var window := openContainerId.value;
        openContainerId := None;
        assert close[1..] == [];
        TryWriteClient(CloseContainerPacket(window, env.version));
      }
      ghost var s1 := s0.(openContainer := None);
      assert Abs() == SendAll(env, s1, close);
      ghost var stop := if s0.shadow.audio then [StopAllSounds(env.version)] else [];
      SendAllConcat(env, s1.(shadow := s0.shadow.(audio := false)), close, stop);
      SendAllIgnoresShadow(env, s1, close, s0.shadow.(audio := false));
      if hasActiveAudio {
        hasActiveAudio := false;
        assert stop[1..] == [];
        TryWriteClient(StopAllSounds(env.version));
      }
    }

    /** `teardown_transferred_state`. */
    method TeardownTransferredState()
      modifies this`openContainerId, this`hasActiveAudio, this`activeObjectives, this`activeDisplaySlots, this`activeBossBars, this`world
      ensures Abs() == Teardown(env, old(Abs()))
    {
      hide SendAll, QuietPackets, ObjectiveRemovals, SlotClears, BarRemovals;
      ghost var s0 := Abs();
      var n := world.clientWrites;
      CloseAndSilence();
      ghost var s1 := Abs();
      DrainObjectives(n);
      ghost var s2 := Abs();
      DrainDisplaySlots(n);
      ghost var s3 := Abs();
      DrainBossBars(n);
      TeardownInStages(env, s0, s1, s2, s3, Abs());
    }

    // ----- Switching servers -----

    /** The configuration loop with the target; registry packets go straight into the session's cache. */
    method ConfigureTarget(conn: Conn, incoming: seq<ConfigRead>) returns (finished: bool, target: Conn)
      modifies this`registryCache
      ensures Handshake(finished, target, registryCache) == Configure(env, conn, old(registryCache), incoming)
    {
      hide Frame, Classify, Registry.Step;
      target := conn;
      var i := 0;
      assert incoming[0..] == incoming;
      while i < |incoming|
        invariant 0 <= i <= |incoming|
        invariant Configure(env, target, registryCache, incoming[i..]) == Configure(env, conn, old(registryCache), incoming)
      {
        assert incoming[i..][1..] == incoming[i + 1..];
        if incoming[i].ReadFailed? {
          return false, target;
        }
        var packet := incoming[i].packet;
        match Classify(packet, env.version) {
          case CacheIt =>
            registryCache := Registry.Step(registryCache, packet);
          case Reply(reply) =>
            if !incoming[i].replied {
              return false, target.(intact := false);
            }
            var wire := EncodePacket(env.zlib, reply, target.threshold);
            target := target.(sent := target.sent + [reply], wire := target.wire + wire);
          case Finish(finish) =>
            if !incoming[i].replied {
              return false, target.(intact := false);
            }
            var wire := EncodePacket(env.zlib, finish, target.threshold);
            return true, target.(sent := target.sent + [finish], wire := target.wire + wire);
          case GiveUp =>
            return false, target;
          case Skip =>
        }
        i := i + 1;
      }
      return false, target;
    }

    /** `switch_server`. */
    method SwitchServer(target: Bytes, connect: Connect) returns (r: Result<bool>)
      modifies this
      ensures (Abs(), r) == Switch(env, old(Abs()), target, connect)
    {
      hide SendClient, Configure, Teardown, Install, Chat;
      if target !in env.servers {
        var ok := WriteClient(Chat(env, ServerNotFound(target)), FromProxy);
        return if ok then Ok(false) else Err(Io);
      }
      if connect.Refused? {
        TryWriteClient(Chat(env, ConnectFailed(target)));
        return Ok(false);
      }
      var finished, newBackend := true, Conn(target, connect.threshold, [], [], true);
      if env.version >= 764 {
        finished, newBackend := ConfigureTarget(newBackend, connect.incoming);
      }
      if !finished {
        world := world.(aborted := world.aborted + [newBackend]);
        TryWriteClient(Chat(env, ConnectFailed(target)));
        return Ok(false);
      }
      CompleteSwitch(newBackend, target);
      return Ok(true);
    }

    /** Drops the old backend, clears the client, and installs the new backend. */
    method CompleteSwitch(newBackend: Conn, target: Bytes)
      modifies this
      ensures Abs() == Install(Teardown(env, old(Abs()).(backend := None)), newBackend, target)
    {
      hide Teardown;
      backend := None;
      TeardownTransferredState();
      ghost var cleared := Abs();
      backend, backendThreshold := Some(|world.conns|), newBackend.threshold;
      world := world.(conns := world.conns + [newBackend]);
      currentServer, serverTransferred := target, true;
      assert Abs() == Install(cleared, newBackend, target);
    }

    // ----- Packets -----

    /** `handle_client_packet`. */
    method HandleClientPacket(p: RawPacket, script: CommandResult, suggestions: Option<Bytes>, connect: Connect) returns (r: Result<bool>)
      modifies this
      ensures (Abs(), r) == HandleClient(env, old(Abs()), p, script, suggestions, connect)
    {
      hide SendClient, AfterCommand, Chat, IsProtected, Intercepted, IsServerboundClose;
      if IsProtected(p) {
        return Ok(true);
      }
      if IsServerboundClose(p.id, env.version) {
        openContainerId := None;
      }
      if Intercepted(p, env.version) && script.message != [] {
        var ok := WriteClient(Chat(env, ScriptMessage(script.message)), FromProxy);
        if !ok {
          return Err(Io);
        }
      }
      r := ObeyScript(p, script, suggestions, connect);
    }

    /** The part of `handle_client_packet` after the script's message: reroute, cancel, complete or forward. */
    method ObeyScript(p: RawPacket, script: CommandResult, suggestions: Option<Bytes>, connect: Connect) returns (r: Result<bool>)
      modifies this
      ensures (Abs(), r) == AfterCommand(env, old(Abs()), p, script, suggestions, connect)
    {
      hide SendClient, SendBackend, Switch, Intercepted, DecodesAsTabRequest;
      if Intercepted(p, env.version) {
        if script.reroute != [] {
          r := SwitchServer(script.reroute, connect);
          if r == Ok(true) {
            world := world.(requested := world.requested + 1);
          }
          return if r.Ok? then Ok(true) else r;
        }
        if script.cancel {
          return Ok(true);
        }
      }
      var ok;
      if DecodesAsTabRequest(p, env.version) && suggestions.Some? {
        ok := WriteClient(RawPacket(TabResponseId(env.version), suggestions.value), FromProxy);
      } else {
        ok := WriteBackend(p);
      }
      r := if ok then Ok(true) else Err(Io);
    }

    method TrackWindow(p: RawPacket)
      modifies this`openContainerId
      ensures openContainerId == TrackContainer(old(openContainerId), p, env.version)
    {
      hide DecodeVarInt, IsOpenWindow, CloseContainerId;
      if IsOpenWindow(p.id, env.version) {
        var window := TakeVarInt(p.payload, 0);
        if window.Ok? {
          openContainerId := Some(window.value.0 % 256);
        }
      } else if p.id == CloseContainerId(env.version) {
        openContainerId := None;
      }
    }

    method TrackSound(p: RawPacket)
      modifies this`hasActiveAudio
      ensures hasActiveAudio == ApplySound(old(hasActiveAudio), p, env.version)
    {
      hide IsSound, StopSoundId;
      if IsSound(p.id, env.version) {
        hasActiveAudio := true;
      } else if p.id == StopSoundId(env.version) && p.payload != [] && p.payload[0] == 0 {
        hasActiveAudio := false;
      }
    }

    method TrackBossBar(p: RawPacket)
      modifies this`activeBossBars
      ensures activeBossBars == Apply(old(activeBossBars), BarEffect(p, env.version))
    {
      hide DecodeBossBar, BossBarId;
      if p.id == BossBarId(env.version) {
        var bar := DecodeBossBar(p.payload);
        if bar.Ok? {
          if bar.value.1 == 0 {
            activeBossBars := activeBossBars + {bar.value.0};
          } else if bar.value.1 == 1 {
            activeBossBars := activeBossBars - {bar.value.0};
          }
        }
      }
    }

    method TrackObjective(p: RawPacket)
      modifies this`activeObjectives
      ensures activeObjectives == Apply(old(activeObjectives), ObjectiveEffect(p, env.version))
    {
      hide DecodeObjective, ObjectiveId;
      if p.id == ObjectiveId(env.version) {
        var objective := DecodeObjective(p.payload);
        if objective.Ok? {
          if objective.value.1 == 0 {
            activeObjectives := activeObjectives + {objective.value.0};
          } else if objective.value.1 == 1 {
            activeObjectives := activeObjectives - {objective.value.0};
          }
        }
      }
    }

    method TrackDisplaySlot(p: RawPacket)
      modifies this`activeDisplaySlots
      ensures activeDisplaySlots == Apply(old(activeDisplaySlots), SlotEffect(p, env.version))
    {
      hide DecodeDisplaySlot, DisplaySlotId;
      if p.id == DisplaySlotId(env.version) {
        var slot := DecodeDisplaySlot(p.payload);
        if slot.Ok? {
          if slot.value.1 == [] {
            activeDisplaySlots := activeDisplaySlots - {slot.value.0};
          } else {
            activeDisplaySlots := activeDisplaySlots + {slot.value.0};
          }
        }
      }
    }

    /** The tracking at the head of `handle_backend_packet`. */
    method TrackBackendPacket(p: RawPacket)
      modifies this`openContainerId, this`hasActiveAudio, this`activeBossBars, this`activeObjectives, this`activeDisplaySlots
      ensures Abs() == old(Abs()).(openContainer := TrackContainer(old(openContainerId), p, env.version),
                                   shadow := Track(old(Abs()).shadow, p, env.version))
    {
      hide TrackContainer, ApplySound, Apply, BarEffect, ObjectiveEffect, SlotEffect;
      TrackWindow(p);
      TrackSound(p);
      TrackBossBar(p);
      TrackObjective(p);
      TrackDisplaySlot(p);
    }

    /** Tells the player and switches to the default server. */
    method FallBack(notice: Notice, connect: Connect) returns (r: Result<bool>)
      modifies this
      ensures (Abs(), r) == FailOver(env, old(Abs()), notice, connect)
    {
      hide SendClient, Switch, Chat;
      TryWriteClient(Chat(env, notice));
      r := SwitchServer(env.defaultServer, connect);
      if r == Ok(true) {
        world := world.(fallbacks := world.fallbacks + 1);
      }
    }

    /** `handle_backend_packet`. */
    method HandleBackendPacket(p: RawPacket, connect: Connect) returns (r: Result<bool>)
      modifies this
      ensures (Abs(), r) == HandleBackend(env, old(Abs()), p, connect)
    {
      hide FailOver, RelayToClient, Track, TrackContainer, IsProtected;
      if IsProtected(p) {
        return Ok(true);
      }
      var conn := if backend.Some? then backend.value else 0;
      TrackBackendPacket(p);
      world := world.(inbox := world.inbox + [Inbound(conn, p)]);
      if IsPlayDisconnect(p.id) {
        if currentServer == env.defaultServer {
          return Err(BackendConnectionFailed);
        }
        r := FallBack(BackendDisconnected(currentServer), connect);
        return;
      }
      r := RelayPacket(p, conn);
    }

    /** The part of `handle_backend_packet` that translates, injects or forwards. */
    method RelayPacket(p: RawPacket, conn: nat) returns (r: Result<bool>)
      modifies this`serverTransferred, this`world
      ensures (Abs(), r) == RelayToClient(env, old(Abs()), p, conn)
    {
      hide SendClient, RespawnFor, IsLoginPlay, CommandInjection.Inject, CommandInjection.IsDeclareCommands;
      var ok;
      if IsLoginPlay(p.id, env.version) {
        if serverTransferred {
          serverTransferred := false;
          var respawn := TranslateLogin(p, env.version);
          ok := WriteClient(respawn, Translated(conn));
        } else {
          ok := WriteClient(p, Relayed(conn));
        }
      } else if CommandInjection.IsDeclareCommands(p.id, env.version) {
        var injected := CommandInjection.InjectProxyCommands(p, env.version, env.servers, env.normalize);
        ok := WriteClient(if injected.Ok? then injected.value else p, Relayed(conn));
      } else {
        ok := WriteClient(p, Relayed(conn));
      }
      r := if ok then Ok(true) else Err(Io);
    }

    /** `handle_backend_eof`. */
    method HandleBackendEof(connect: Connect) returns (r: Result<bool>)
      modifies this
      ensures (Abs(), r) == HandleEof(env, old(Abs()), connect)
    {
      hide FailOver;
      if currentServer == env.defaultServer {
        return Ok(false);
      }
      r := FallBack(ConnectionLost(currentServer), connect);
    }

    // ----- The loop -----

    /** One turn of the `select!` loop. */
    method Turn(e: Event)
      modifies this
      ensures Abs() == Step(env, old(Abs()), e)
    {
      hide HandleClient, HandleBackend, HandleEof, SendClient;
      if !running {
        return;
      }
      if backend.None? {
        running := false;
        return;
      }
      var r: Result<bool>;
      match e {
        case ClientPacket(p, script, suggestions, connect) => r := HandleClientPacket(p, script, suggestions, connect);
        case ClientGone => r := Ok(false);
        case BackendPacket(p, connect) => r := HandleBackendPacket(p, connect);
        case BackendGone(connect) => r := HandleBackendEof(connect);
        case ShutdownSignal =>
          TryWriteClient(RawPacket(ShutdownId(env.version), env.shutdownPayload));
          r := Ok(false);
      }
      if r != Ok(true) {
        running := false;
        if r.Ok? {
          backend := None;
        }
      }
    }

    /** `run`: the loop over everything that happens during a session. */
    method RunSession(events: seq<Event>)
      modifies this
      ensures Abs() == Run(env, old(Abs()), events)
    {
      hide Step;
      assert events[..0] == [];
      for i := 0 to |events|
        invariant Abs() == Run(env, old(Abs()), events[..i])
      {
        assert events[..i + 1][..i] == events[..i];
        Turn(events[i]);
      }
      assert events[..|events|] == events;
    }
  }

  /** A session from hand-off to its end: the object itself has the properties proved of runs. */
  method PlaySession(env: Env, server: Bytes, threshold: Option<nat>, cache: Registry.Cache, events: seq<Event>)
    returns (m: PlayStateMachine)
    requires env.Lawful() && server in env.servers
    ensures fresh(m) && m.env == env
    ensures m.world.clientIntact ==>
              var shown := Replay(Packets(m.world.clientLog), env.version);
              && m.activeBossBars == shown.bars && m.activeObjectives == shown.objectives && m.activeDisplaySlots == shown.slots
              && (m.hasActiveAudio ==> shown.audio) && (SoundsAreUnmistakable(env.version) ==> m.hasActiveAudio == shown.audio)
    ensures m.world.clientIntact && AllFit(env.zlib, Packets(m.world.clientLog), MAX_PACKET, threshold) ==>
              ReadAll(env.zlib, m.world.clientWire, MAX_PACKET, threshold) == Ok(Packets(m.world.clientLog))
    ensures m.world.fallbacks <= 1 + m.world.requested && m.currentServer in env.servers
  {
    hide Run, Replay, Packets, ReadAll, AllFit, Start, Bounded;
    m := new PlayStateMachine(env, server, threshold, threshold, cache);
    m.RunSession(events);
    ShadowMirrorsClient(env, server, threshold, threshold, cache, events);
    ThresholdsAreDecoupled(env, server, threshold, threshold, cache, events);
    FailoverIsBounded(env, server, threshold, threshold, cache, events);
  }

  /** Login to Respawn, falling back to a default reset. */
  method TranslateLogin(p: RawPacket, version: int) returns (respawn: RawPacket)
    ensures respawn == RespawnFor(p, version)
  {
    hide Respawn.ExtractRespawn, Respawn.EncodeRespawn;
    var extracted := Respawn.ExtractFromLogin(p, version, DataKept(version));
    respawn := if extracted.Ok? then extracted.value
               else Respawn.EncodeRespawn(Respawn.DefaultReset(DataKept(version)), version);
  }

  /** The stages of the teardown add up to the teardown. */
  lemma TeardownInStages(env: Env, s0: State, s1: State, s2: State, s3: State, s4: State)
    requires var n := s0.world.clientWrites; var v := env.version;
             && s1 == SendAll(env, s0.(openContainer := None, shadow := s0.shadow.(audio := false)), QuietPackets(env, s0))
             && s2 == SendAll(env, s1.(shadow := s1.shadow.(objectives := {})), ObjectiveRemovals(env.objectiveOrder(n, s1.shadow.objectives), v))
             && s3 == SendAll(env, s2.(shadow := s2.shadow.(slots := {})), SlotClears(env.slotOrder(n, s2.shadow.slots), v))
             && s4 == SendAll(env, s3.(shadow := s3.shadow.(bars := {})), BarRemovals(env.barOrder(n, s3.shadow.bars), v))
    ensures s4 == Teardown(env, s0)
  {
    hide SendAll, QuietPackets, ObjectiveRemovals, SlotClears, BarRemovals;
    var n, v := s0.world.clientWrites, env.version;
    var base := s0.(openContainer := None, shadow := NOTHING);
    var q, o := QuietPackets(env, s0), ObjectiveRemovals(env.objectiveOrder(n, s0.shadow.objectives), v);
    var l, b := SlotClears(env.slotOrder(n, s0.shadow.slots), v), BarRemovals(env.barOrder(n, s0.shadow.bars), v);
    var t1, t2, t3 := SendAll(env, base, q), SendAll(env, base, q + o), SendAll(env, base, (q + o) + l);
    SendAllIgnoresShadow(env, base, q, s0.shadow.(audio := false));
    SendAllIgnoresShadow(env, t1, o, s0.shadow.(audio := false, objectives := {}));
    SendAllIgnoresShadow(env, t2, l, s0.shadow.(audio := false, objectives := {}, slots := {}));
    SendAllIgnoresShadow(env, base, ((q + o) + l) + b, NOTHING);
    SendAllIgnoresShadow(env, t3, b, NOTHING);
    SendAllConcat(env, base, q, o);
    SendAllConcat(env, base, q + o, l);
    SendAllConcat(env, base, (q + o) + l, b);
    TeardownUnfolds(env, s0);
  }
}
