/** The Play phase as a state machine: every step as a function of the state and of what the world answers. */
module Routing {
  import opened Wire
  import opened VarInt
  import opened Fields
  import opened Codec
  import opened Display
  import opened PluginChannel
  import Respawn
  import CommandInjection
  import Registry
  import opened ConfigPhase

  // ----- The world around a session -----

  /** Texts shown in the chat; how they are worded and encoded does not matter here. */
  datatype Notice =
    | ServerNotFound(server: Bytes)
    | ConnectFailed(server: Bytes)
    | BackendDisconnected(server: Bytes)
    | ConnectionLost(server: Bytes)
    | ScriptMessage(text: Bytes)

  /**
   * Everything fixed for a session. Outcomes of writes and the order in which hash sets are drained
   * are arbitrary functions of how many writes came before.
   */
  datatype Env = Env(
    version: int,
    servers: seq<Bytes>,
    defaultServer: Bytes,
    zlib: Zlib,
    normalize: Bytes -> Bytes,
    chatPayload: Notice -> Bytes,
    shutdownPayload: Bytes,
    clientTakes: nat -> bool,
    backendTakes: nat -> bool,
    objectiveOrder: (nat, set<Bytes>) -> seq<Bytes>,
    slotOrder: (nat, set<i32>) -> seq<i32>,
    barOrder: (nat, set<Bytes>) -> seq<Bytes>)
  {
    /** Draining a set yields each of its elements exactly once. */
    ghost predicate Lawful()
    {
      && zlib.Lawful()
      && (forall n, s :: Enumerates(objectiveOrder(n, s), s))
      && (forall n, s :: Enumerates(slotOrder(n, s), s))
      && (forall n, s :: Enumerates(barOrder(n, s), s))
    }
  }

  ghost predicate Enumerates<T(!new)>(xs: seq<T>, s: set<T>)
  {
    && (forall x :: x in xs <==> x in s)
    && (forall i, j :: 0 <= i < j < |xs| ==> xs[i] != xs[j])
  }

  /** Where a packet sent to the client came from. */
  datatype Origin = Relayed(conn: nat) | Translated(conn: nat) | FromProxy

  datatype Sent = Sent(packet: RawPacket, origin: Origin)

  datatype Inbound = Inbound(conn: nat, packet: RawPacket)

  /** A backend connection: what was written to it, as packets and as bytes. */
  datatype Conn = Conn(server: Bytes, threshold: Option<nat>, sent: seq<RawPacket>, wire: Bytes, intact: bool)

  /** What happened so far outside the proxy's own fields. */
  datatype World = World(
    clientLog: seq<Sent>,      // packets the client stream took
    clientWire: Bytes,         // the same as bytes
    clientIntact: bool,        // no client write has failed
    clientWrites: nat,
    backendWrites: nat,
    conns: seq<Conn>,          // connections that were installed, oldest first
    aborted: seq<Conn>,        // connections given up during configuration
    inbox: seq<Inbound>,       // backend packets handled
    fallbacks: nat,            // successful failovers
    requested: nat)            // successful switches asked for by the client

  /** The fields of the state machine, and the world. */
  datatype State = State(
    currentServer: Bytes,
    transferPending: bool,
    openContainer: Option<byte>,
    shadow: Shadow,
    clientThreshold: Option<nat>,
    backendThreshold: Option<nat>,
    backend: Option<nat>,
    cache: Registry.Cache,
    running: bool,
    world: World)

  /** A new state machine for an already connected client and backend. */
  function Start(server: Bytes, clientThreshold: Option<nat>, backendThreshold: Option<nat>, cache: Registry.Cache): State
  {
    State(server, false, None, NOTHING, clientThreshold, backendThreshold, Some(0), cache, true,
          World([], [], true, 0, 0, [Conn(server, backendThreshold, [], [], true)], [], [], 0, 0))
  }

  // ----- Writing -----

  /** `write_packet_with_compression` on the client stream, always at the client's threshold. */
  function SendClient(env: Env, s: State, p: RawPacket, origin: Origin): (State, bool)
  {
    var w := s.world;
    if env.clientTakes(w.clientWrites) then
      (s.(world := w.(clientWrites := w.clientWrites + 1, clientLog := w.clientLog + [Sent(p, origin)],
                      clientWire := w.clientWire + Frame(env.zlib, p, s.clientThreshold))), true)
    else
      (s.(world := w.(clientWrites := w.clientWrites + 1, clientIntact := false)), false)
  }

  /** A write whose failure the source ignores. */
  function Send(env: Env, s: State, p: RawPacket): State { SendClient(env, s, p, FromProxy).0 }

  function SendAll(env: Env, s: State, ps: seq<RawPacket>): State
    decreases |ps|
  {
    if ps == [] then s else SendAll(env, Send(env, s, ps[0]), ps[1..])
  }

  function Chat(env: Env, n: Notice): RawPacket { RawPacket(SystemChatId(env.version), env.chatPayload(n)) }

  function Append(env: Env, c: Conn, p: RawPacket, threshold: Option<nat>): Conn
  {
    c.(sent := c.sent + [p], wire := c.wire + Frame(env.zlib, p, threshold))
  }

  /** A write to the current backend at the backend's threshold; with no backend nothing is written. */
  function SendBackend(env: Env, s: State, p: RawPacket): (State, bool)
  {
    var w := s.world;
    if s.backend.None? || s.backend.value >= |w.conns| then (s, true)
    else
      var k := s.backend.value;
      if env.backendTakes(w.backendWrites) then
        (s.(world := w.(backendWrites := w.backendWrites + 1,
                        conns := w.conns[k := Append(env, w.conns[k], p, s.backendThreshold)])), true)
      else
        (s.(world := w.(backendWrites := w.backendWrites + 1, conns := w.conns[k := w.conns[k].(intact := false)])), false)
  }

  // ----- Switching servers -----

  /** A configuration packet read from the target, and whether a reply to it could be written. */
  datatype ConfigRead = ReadFailed | Read(packet: RawPacket, replied: bool)

  /** The connector's answer; the reads run into a timeout when the list is exhausted. */
  datatype Connect = Refused | Connected(threshold: Option<nat>, incoming: seq<ConfigRead>)

  /** What the configuration loop does with one packet. */
  datatype ConfigAction = CacheIt | Reply(packet: RawPacket) | Finish(packet: RawPacket) | GiveUp | Skip

  function Classify(p: RawPacket, version: int): ConfigAction
  {
    if p.id == Registry.REGISTRY_DATA_ID || (version < 766 && p.id == 0x05) then CacheIt
    else if version >= 766 && p.id == 0x0E then Reply(RawPacket(0x07, EncodeVarInt(0)))
    else if p.id == 0x04 then Reply(p)
    else if p.id == 0x05 then Reply(p)
    else if p.id == FinishId(version) then Finish(RawPacket(FinishId(version), []))
    else if p.id == DisconnectId(version) then GiveUp
    else Skip
  }

  datatype Handshake = Handshake(finished: bool, conn: Conn, cache: Registry.Cache)

  /** The configuration loop with the target backend. */
  function Configure(env: Env, conn: Conn, cache: Registry.Cache, incoming: seq<ConfigRead>): Handshake
    decreases |incoming|
  {
    if incoming == [] || incoming[0].ReadFailed? then Handshake(false, conn, cache)
    else
      var p := incoming[0].packet;
      match Classify(p, env.version)
      case CacheIt => Configure(env, conn, Registry.Step(cache, p), incoming[1..])
      case Reply(q) =>
        if incoming[0].replied then Configure(env, Append(env, conn, q, conn.threshold), cache, incoming[1..])
        else Handshake(false, conn.(intact := false), cache)
      case Finish(q) =>
        if incoming[0].replied then Handshake(true, Append(env, conn, q, conn.threshold), cache)
        else Handshake(false, conn.(intact := false), cache)
      case GiveUp => Handshake(false, conn, cache)
      case Skip => Configure(env, conn, cache, incoming[1..])
  }

  /** Before 764 there is no configuration phase. */
  function Prepare(env: Env, conn: Conn, cache: Registry.Cache, incoming: seq<ConfigRead>): Handshake
  {
    if env.version >= 764 then Configure(env, conn, cache, incoming) else Handshake(true, conn, cache)
  }

  /** The packets that clear the client, in the order the source sends them. */
  function TeardownPackets(env: Env, s: State): seq<RawPacket>
  {
    var n := s.world.clientWrites;
    (if s.openContainer.Some? then [CloseContainerPacket(s.openContainer.value, env.version)] else [])
    + (if s.shadow.audio then [StopAllSounds(env.version)] else [])
    + ObjectiveRemovals(env.objectiveOrder(n, s.shadow.objectives), env.version)
    + SlotClears(env.slotOrder(n, s.shadow.slots), env.version)
    + BarRemovals(env.barOrder(n, s.shadow.bars), env.version)
  }

  function ObjectiveRemovals(names: seq<Bytes>, version: int): (ps: seq<RawPacket>)
    ensures |ps| == |names|
  {
    seq(|names|, i requires 0 <= i < |names| => RemoveObjective(names[i], version))
  }

  function SlotClears(slots: seq<i32>, version: int): (ps: seq<RawPacket>)
    ensures |ps| == |slots|
  {
    seq(|slots|, i requires 0 <= i < |slots| => ClearSlot(slots[i], version))
  }

  function BarRemovals(bars: seq<Bytes>, version: int): (ps: seq<RawPacket>)
    ensures |ps| == |bars|
  {
    seq(|bars|, i requires 0 <= i < |bars| => RemoveBar(bars[i], version))
  }

  /** `teardown_transferred_state`. */
  function Teardown(env: Env, s: State): State
  {
    SendAll(env, s.(openContainer := None, shadow := NOTHING), TeardownPackets(env, s))
  }

  /** Stream, threshold and name of the new backend, installed together. */
  function Install(s: State, conn: Conn, target: Bytes): State
  {
    s.(backend := Some(|s.world.conns|), backendThreshold := conn.threshold, currentServer := target,
       transferPending := true, world := s.world.(conns := s.world.conns + [conn]))
  }

  /** `switch_server`. */
  function Switch(env: Env, s: State, target: Bytes, connect: Connect): (State, Result<bool>)
  {
    if target !in env.servers then
      var (s', ok) := SendClient(env, s, Chat(env, ServerNotFound(target)), FromProxy);
      (s', if ok then Ok(false) else Err(Io))
    else
      match connect
      case Refused => (Send(env, s, Chat(env, ConnectFailed(target))), Ok(false))
      case Connected(threshold, incoming) =>
        var h := Prepare(env, Conn(target, threshold, [], [], true), s.cache, incoming);
        if !h.finished then
          var s' := s.(cache := h.cache, world := s.world.(aborted := s.world.aborted + [h.conn]));
          (Send(env, s', Chat(env, ConnectFailed(target))), Ok(false))
        else
          (Install(Teardown(env, s.(cache := h.cache, backend := None)), h.conn, target), Ok(true))
  }

  // ----- Packets from the client -----

  /** What the script host returned for a command; empty texts mean "none". */
  datatype CommandResult = CommandResult(message: Bytes, reroute: Bytes, cancel: bool)

  predicate IsServerboundClose(id: int, version: int)
  {
    if version >= 776 then id == 0x13
    else if version >= 768 then id == 0x11
    else if version >= 766 then id == 0x0F
    else if version >= 764 then id == 0x0E
    else if version >= 762 then id == 0x0D
    else id == 0x0C || id == 0x0A || id == 0x09
  }

  predicate IsCommand(id: int, version: int)
  {
    if version >= 776 then id == 0x07 || id == 0x08 || id == 0x09
    else if version >= 768 then id == 0x05 || id == 0x06 || id == 0x07
    else id == 0x04 || id == 0x05 || id == 0x06
  }

  /** Chat messages are intercepted only if they start with a slash. */
  predicate IsChatMessage(id: int, version: int)
  {
    if version >= 776 then id == 0x09 else if version >= 768 then id == 0x07 else id == 0x06
  }

  predicate IsTabRequest(id: int, version: int)
  {
    if version >= 776 then id == 0x0F
    else if version >= 768 then id == 0x0D || id == 0x0F
    else if version >= 766 then id == 0x0B
    else if version >= 764 then id == 0x0A
    else id == 0x09 || id == 0x08 || id == 0x06 || id == 0x05
  }

  /** The packet is a command the script host gets to see. */
  predicate Intercepted(p: RawPacket, version: int)
  {
    hide TakeString;
    IsCommand(p.id, version) &&
    match TakeString(p.payload, 0)
    case Ok((command, _)) => !IsChatMessage(p.id, version) || (command != [] && command[0] == 0x2F)
    case Err(_) => false
  }

  predicate DecodesAsTabRequest(p: RawPacket, version: int)
  {
    hide TakeString, DecodeVarInt;
    IsTabRequest(p.id, version) &&
    match DecodeVarInt(p.payload, 0)
    case Ok((_, next)) => TakeString(p.payload, next).Ok?
    case Err(_) => false
  }

  /** A switch asked for by the client counts as requested when it succeeds. */
  function CountRequested(r: (State, Result<bool>)): (State, Result<bool>)
  {
    if r.1 == Ok(true) then (r.0.(world := r.0.world.(requested := r.0.world.requested + 1)), r.1) else r
  }

  /** `handle_client_packet` once any script message has been shown. */
  function AfterCommand(env: Env, s: State, p: RawPacket, script: CommandResult, suggestions: Option<Bytes>, connect: Connect)
    : (State, Result<bool>)
  {
    if Intercepted(p, env.version) && script.reroute != [] then
      var (s', r) := CountRequested(Switch(env, s, script.reroute, connect));
      (s', if r.Ok? then Ok(true) else r)
    else if Intercepted(p, env.version) && script.cancel then (s, Ok(true))
    else if DecodesAsTabRequest(p, env.version) && suggestions.Some? then
      var (s', ok) := SendClient(env, s, RawPacket(TabResponseId(env.version), suggestions.value), FromProxy);
      (s', if ok then Ok(true) else Err(Io))
    else
      var (s', ok) := SendBackend(env, s, p);
      (s', if ok then Ok(true) else Err(Io))
  }

  /** `handle_client_packet`; `suggestions` is the payload of a non-empty completion list. */
  function HandleClient(env: Env, s: State, p: RawPacket, script: CommandResult, suggestions: Option<Bytes>, connect: Connect)
    : (State, Result<bool>)
  {
    if IsProtected(p) then (s, Ok(true))
    else
      var s1 := if IsServerboundClose(p.id, env.version) then s.(openContainer := None) else s;
      if Intercepted(p, env.version) && script.message != [] then
        var (s2, ok) := SendClient(env, s1, Chat(env, ScriptMessage(script.message)), FromProxy);
        if ok then AfterCommand(env, s2, p, script, suggestions, connect) else (s2, Err(Io))
      else AfterCommand(env, s1, p, script, suggestions, connect)
  }

  // ----- Packets from the backend -----

  function TrackContainer(c: Option<byte>, p: RawPacket, version: int): Option<byte>
  {
    if IsOpenWindow(p.id, version) then
      match DecodeVarInt(p.payload, 0)
      case Ok((window, _)) => Some(window % 256)
      case Err(_) => c
    else if p.id == CloseContainerId(version) then None
    else c
  }

  /** Failover to the default server, after telling the player. */
  function FailOver(env: Env, s: State, notice: Notice, connect: Connect): (State, Result<bool>)
  {
    var (s', r) := Switch(env, Send(env, s, Chat(env, notice)), env.defaultServer, connect);
    if r == Ok(true) then (s'.(world := s'.world.(fallbacks := s'.world.fallbacks + 1)), r) else (s', r)
  }

  /** 0x03 from 764 on, 0x01 before. */
  function DataKept(version: int): byte { if version >= 764 then 0x03 else 0x01 }

  /** The Respawn a Login (Play) is turned into: extracted, or a default reset. */
  function RespawnFor(login: RawPacket, version: int): RawPacket
  {
    match Respawn.ExtractRespawn(login.payload, version, DataKept(version))
    case Ok(r) => r
    case Err(_) => Respawn.EncodeRespawn(Respawn.DefaultReset(DataKept(version)), version)
  }

  /** The packet the client is sent for a backend packet that is neither dropped nor a disconnect. */
  function Forwarded(env: Env, pending: bool, p: RawPacket, conn: nat): Sent
  {
    hide RespawnFor;
    if IsLoginPlay(p.id, env.version) then
      if pending then Sent(RespawnFor(p, env.version), Translated(conn)) else Sent(p, Relayed(conn))
    else if CommandInjection.IsDeclareCommands(p.id, env.version) then
      match CommandInjection.Inject(p, env.version, env.servers, env.normalize)
      case Ok(q) => Sent(q, Relayed(conn))
      case Err(_) => Sent(p, Relayed(conn))
    else Sent(p, Relayed(conn))
  }

  /** Sends the client what `p` becomes; handling a Login ends a pending transfer. */
  function RelayToClient(env: Env, s: State, p: RawPacket, conn: nat): (State, Result<bool>)
  {
    hide Forwarded;
    var out := Forwarded(env, s.transferPending, p, conn);
    var s1 := if IsLoginPlay(p.id, env.version) then s.(transferPending := false) else s;
    var (s2, ok) := SendClient(env, s1, out.packet, out.origin);
    (s2, if ok then Ok(true) else Err(Io))
  }

  /** `handle_backend_packet`. */
  function HandleBackend(env: Env, s: State, p: RawPacket, connect: Connect): (State, Result<bool>)
  {
    hide RelayToClient, Track, TrackContainer, Switch;
    if IsProtected(p) then (s, Ok(true))
    else
      var conn := if s.backend.Some? then s.backend.value else 0;
      var s1 := s.(openContainer := TrackContainer(s.openContainer, p, env.version),
                   shadow := Track(s.shadow, p, env.version),
                   world := s.world.(inbox := s.world.inbox + [Inbound(conn, p)]));
      if IsPlayDisconnect(p.id) then
        if s.currentServer != env.defaultServer
        then FailOver(env, s1, BackendDisconnected(s.currentServer), connect)
        else (s1, Err(BackendConnectionFailed))
      else RelayToClient(env, s1, p, conn)
  }

  /** `handle_backend_eof`. */
  function HandleEof(env: Env, s: State, connect: Connect): (State, Result<bool>)
  {
    if s.currentServer != env.defaultServer then FailOver(env, s, ConnectionLost(s.currentServer), connect)
    else (s, Ok(false))
  }

  // ----- The routing loop -----

  /** One turn of the loop, with everything the world answers during it. */
  datatype Event =
    | ClientPacket(packet: RawPacket, script: CommandResult, suggestions: Option<Bytes>, connect: Connect)
    | ClientGone
    | BackendPacket(packet: RawPacket, connect: Connect)
    | BackendGone(connect: Connect)
    | ShutdownSignal

  /** The loop goes on only after Ok(true); leaving it normally closes the backend. */
  function Continue(r: (State, Result<bool>)): State
  {
    match r.1
    case Ok(true) => r.0
    case Ok(false) => r.0.(running := false, backend := None)
    case Err(_) => r.0.(running := false)
  }

  function Step(env: Env, s: State, e: Event): State
  {
    if !s.running then s
    else if s.backend.None? then s.(running := false)
    else
      match e
      case ClientPacket(p, script, suggestions, connect) => Continue(HandleClient(env, s, p, script, suggestions, connect))
      case ClientGone => s.(running := false, backend := None)
      case BackendPacket(p, connect) => Continue(HandleBackend(env, s, p, connect))
      case BackendGone(connect) => Continue(HandleEof(env, s, connect))
      case ShutdownSignal =>
        Send(env, s, RawPacket(ShutdownId(env.version), env.shutdownPayload)).(running := false, backend := None)
  }

  /** A whole run. */
  function Run(env: Env, s: State, events: seq<Event>): State
  {
    if events == [] then s else Step(env, Run(env, s, events[..|events| - 1]), events[|events| - 1])
  }
}
