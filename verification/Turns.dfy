/** What every turn of the routing loop comes to: whether the session goes on, where it is then, and what the proxy says. */
module Turns {
  import opened Wire
  import opened VarInt
  import opened Fields
  import opened Codec
  import opened Display
  import opened PluginChannel
  import opened Routing
  import opened Transfers
  import opened Sessions
  import opened Runs
  import opened SessionTheorems
  import opened Relaying
  import Registry

  // ----- Which client packets the proxy looks into -----

  /** A packet whose payload begins with a text is a command if its id says so, in the chat only behind a slash. */
  lemma InterceptedIff(id: i32, text: Bytes, rest: Bytes, version: int)
    requires IsText(text)
    ensures Intercepted(RawPacket(id, PutString(text) + rest), version) <==>
              IsCommand(id, version) && (IsChatMessage(id, version) ==> text != [] && text[0] == '/' as int)
  {
    hide TakeString, PutString, IsText, IsCommand, IsChatMessage;
    AtSelf(PutString(text), rest);
    StringRoundTrip(PutString(text) + rest, 0, text);
  }

  /** A packet whose payload begins with a transaction number and a text is a completion request if its id says so. */
  lemma TabRequestIff(id: i32, transaction: i32, text: Bytes, rest: Bytes, version: int)
    requires IsText(text)
    ensures DecodesAsTabRequest(RawPacket(id, EncodeVarInt(transaction) + (PutString(text) + rest)), version) <==> IsTabRequest(id, version)
  {
    hide TakeString, PutString, IsText, EncodeVarInt, DecodeVarInt, IsTabRequest;
    var b := EncodeVarInt(transaction) + (PutString(text) + rest);
    AtPair(EncodeVarInt(transaction), PutString(text) + rest);
    AtSplit(b, |EncodeVarInt(transaction)|, PutString(text), rest);
    VarIntRoundTrip(b, 0, transaction);
    StringRoundTrip(b, |EncodeVarInt(transaction)|, text);
  }

  /** Every chat message is looked into. */
  lemma ChatIsLookedInto(id: int, version: int)
    requires IsChatMessage(id, version)
    ensures IsCommand(id, version)
  {}

  /** A packet without a readable text is neither. */
  lemma UnreadableIsPassedOver(p: RawPacket, version: int)
    ensures TakeString(p.payload, 0).Err? ==> !Intercepted(p, version)
    ensures DecodeVarInt(p.payload, 0).Err? ==> !DecodesAsTabRequest(p, version)
  {
    hide TakeString, DecodeVarInt, IsCommand, IsTabRequest;
  }

  // ----- Writes that failed -----

  /** Writes are counted, and the handlers leave it to the loop to stop. */
  ghost predicate CountsWrites(s: State, s': State)
  {
    s'.running == s.running && s.world.clientWrites <= s'.world.clientWrites && s.world.backendWrites <= s'.world.backendWrites
  }

  /** A write made between the two states, to the client or to a backend, failed. */
  ghost predicate WriteFailed(env: Env, s: State, s': State)
  {
    || (exists n :: s.world.clientWrites <= n < s'.world.clientWrites && !env.clientTakes(n))
    || (exists n :: s.world.backendWrites <= n < s'.world.backendWrites && !env.backendTakes(n))
  }

  lemma FailedWithin(env: Env, s: State, s1: State, s2: State)
    requires CountsWrites(s, s1) && CountsWrites(s1, s2)
    ensures CountsWrites(s, s2) && (WriteFailed(env, s, s1) || WriteFailed(env, s1, s2) ==> WriteFailed(env, s, s2))
  {
    if WriteFailed(env, s, s1) || WriteFailed(env, s1, s2) {
      if n :| (s.world.clientWrites <= n < s1.world.clientWrites || s1.world.clientWrites <= n < s2.world.clientWrites) && !env.clientTakes(n) {
        assert s.world.clientWrites <= n < s2.world.clientWrites && !env.clientTakes(n);
      } else if n :| (s.world.backendWrites <= n < s1.world.backendWrites || s1.world.backendWrites <= n < s2.world.backendWrites)
                     && !env.backendTakes(n) {
        assert s.world.backendWrites <= n < s2.world.backendWrites && !env.backendTakes(n);
      }
    }
  }

  lemma SendCounts(env: Env, s: State, p: RawPacket, origin: Origin)
    ensures var (s', ok) := SendClient(env, s, p, origin);
            && CountsWrites(s, s') && s'.world.clientWrites == s.world.clientWrites + 1 && (!ok ==> WriteFailed(env, s, s'))
            && ok == env.clientTakes(s.world.clientWrites)
  {
    hide Frame;
  }

  lemma SendBackendCounts(env: Env, s: State, p: RawPacket)
    ensures var (s', ok) := SendBackend(env, s, p); CountsWrites(s, s') && (!ok ==> WriteFailed(env, s, s'))
  {
    hide Frame;
  }

  lemma {:induction false} SendAllCounts(env: Env, s: State, ps: seq<RawPacket>)
    ensures CountsWrites(s, SendAll(env, s, ps))
    decreases |ps|
  {
    hide Frame;
    if ps != [] {
      SendAllCounts(env, Send(env, s, ps[0]), ps[1..]);
    }
  }

  lemma SwitchCounts(env: Env, s: State, target: Bytes, connect: Connect)
    ensures var (s', r) := Switch(env, s, target, connect); CountsWrites(s, s') && (r.Err? ==> WriteFailed(env, s, s'))
  {
    hide SendClient, Chat, Prepare, TeardownPackets, SendAll;
    if target !in env.servers {
      SendCounts(env, s, Chat(env, ServerNotFound(target)), FromProxy);
    } else if connect.Refused? {
      SendCounts(env, s, Chat(env, ConnectFailed(target)), FromProxy);
    } else {
      var h := HandshakeWith(env, s, target, connect);
      var s0, s1 := s.(cache := h.cache, backend := None), s.(cache := h.cache, world := s.world.(aborted := s.world.aborted + [h.conn]));
      SendAllCounts(env, s0.(openContainer := None, shadow := NOTHING), TeardownPackets(env, s0));
      SendCounts(env, s1, Chat(env, ConnectFailed(target)), FromProxy);
    }
  }

  // ----- Results -----

  lemma AfterCommandResult(env: Env, s: State, p: RawPacket, script: CommandResult, suggestions: Option<Bytes>, connect: Connect)
    ensures var (s', r) := AfterCommand(env, s, p, script, suggestions, connect);
            CountsWrites(s, s') && r != Ok(false) && (r.Err? ==> WriteFailed(env, s, s'))
  {
    hide Switch, SendClient, SendBackend, Intercepted, DecodesAsTabRequest, WriteFailed;
    SwitchCounts(env, s, script.reroute, connect);
    SwitchCountsRequested(env, s, script.reroute, connect);
    if suggestions.Some? {
      SendCounts(env, s, RawPacket(TabResponseId(env.version), suggestions.value), FromProxy);
    }
    SendBackendCounts(env, s, p);
  }

  lemma SwitchCountsRequested(env: Env, s: State, target: Bytes, connect: Connect)
    ensures var (s', r) := CountRequested(Switch(env, s, target, connect)); CountsWrites(s, s') && (r.Err? ==> WriteFailed(env, s, s'))
  {
    hide Switch;
    SwitchCounts(env, s, target, connect);
  }

  /** A client packet never ends the session by itself: the result is Ok(true) unless a write made in the turn failed. */
  lemma HandleClientResult(env: Env, s: State, p: RawPacket, script: CommandResult, suggestions: Option<Bytes>, connect: Connect)
    ensures var (s', r) := HandleClient(env, s, p, script, suggestions, connect);
            CountsWrites(s, s') && r != Ok(false) && (r.Err? ==> WriteFailed(env, s, s'))
  {
    hide AfterCommand, SendClient, Intercepted, IsProtected, IsServerboundClose, Chat, WriteFailed;
    var s1 := if IsServerboundClose(p.id, env.version) then s.(openContainer := None) else s;
    var chat := Chat(env, ScriptMessage(script.message));
    var s2 := SendClient(env, s1, chat, FromProxy).0;
    SendCounts(env, s1, chat, FromProxy);
    AfterCommandResult(env, s1, p, script, suggestions, connect);
    AfterCommandResult(env, s2, p, script, suggestions, connect);
    FailedWithin(env, s1, s2, AfterCommand(env, s2, p, script, suggestions, connect).0);
    SameCounts(env, s, s1, HandleClient(env, s, p, script, suggestions, connect).0);
  }

  /** Failed writes are told by the counters alone. */
  lemma SameCounts(env: Env, s: State, s1: State, s2: State)
    requires s1.world == s.world
    ensures WriteFailed(env, s, s2) <==> WriteFailed(env, s1, s2)
  {}

  /** A backend that is lost is made up for exactly when it was not the default one and the default one is reachable. */
  ghost predicate MadeUp(env: Env, s: State, connect: Connect)
  {
    s.currentServer != env.defaultServer && Reachable(env, env.defaultServer, connect)
  }

  lemma FailOverResult(env: Env, s: State, notice: Notice, connect: Connect)
    ensures FailOver(env, s, notice, connect).1 == Ok(true) <==> Reachable(env, env.defaultServer, connect)
    ensures CountsWrites(s, FailOver(env, s, notice, connect).0)
  {
    hide Switch, SendClient, Reachable, Succeeds, CachedFrom;
    SendCounts(env, s, Chat(env, notice), FromProxy);
    SwitchCounts(env, Send(env, s, Chat(env, notice)), env.defaultServer, connect);
    SwitchIsAllOrNothing(env, Send(env, s, Chat(env, notice)), env.defaultServer, connect);
  }

  lemma HandleBackendResult(env: Env, s: State, p: RawPacket, connect: Connect)
    ensures HandleBackend(env, s, p, connect).1 == Ok(true) <==>
              || NamesChannel(p.payload)
              || (if IsPlayDisconnect(p.id) then MadeUp(env, s, connect) else env.clientTakes(s.world.clientWrites))
    ensures CountsWrites(s, HandleBackend(env, s, p, connect).0)
  {
    hide FailOver, Forwarded, Track, TrackContainer, IsProtected, SendClient, NamesChannel, IsLoginPlay, Reachable;
    ProtectedIff(p);
    var conn := if s.backend.Some? then s.backend.value else 0;
    var s1 := s.(openContainer := TrackContainer(s.openContainer, p, env.version), shadow := Track(s.shadow, p, env.version),
                 world := s.world.(inbox := s.world.inbox + [Inbound(conn, p)]));
    FailOverResult(env, s1, BackendDisconnected(s.currentServer), connect);
    var out := Forwarded(env, s.transferPending, p, conn);
    SendCounts(env, s1, out.packet, out.origin);
    SendCounts(env, s1.(transferPending := false), out.packet, out.origin);
  }

  // ----- Whether the session goes on -----

  /** When a turn lets the session go on, as long as writes succeed. */
  ghost predicate LetsGoOn(env: Env, s: State, e: Event)
  {
    match e
    case ClientPacket(_, _, _, _) => true
    case BackendPacket(p, connect) => NamesChannel(p.payload) || !IsPlayDisconnect(p.id) || MadeUp(env, s, connect)
    case BackendGone(connect) => MadeUp(env, s, connect)
    case ClientGone => false
    case ShutdownSignal => false
  }

  /** A turn that lets the session go on is followed by another, unless a write made in it failed; any other ends it. */
  lemma TurnGoesOn(env: Env, s: State, e: Event)
    requires s.running && s.backend.Some?
    ensures var s' := Step(env, s, e);
            && (s'.running ==> LetsGoOn(env, s, e))
            && (LetsGoOn(env, s, e) && !s'.running ==> WriteFailed(env, s, s'))
  {
    hide HandleClient, HandleBackend, FailOver, SendClient, NamesChannel, Reachable;
    match e {
      case ClientPacket(p, script, suggestions, connect) => HandleClientResult(env, s, p, script, suggestions, connect);
      case BackendPacket(p, connect) =>
        HandleBackendResult(env, s, p, connect);
        BackendWriteCounts(env, s, p, connect);
      case BackendGone(connect) => FailOverResult(env, s, ConnectionLost(s.currentServer), connect);
      case _ =>
    }
  }

  lemma BackendWriteCounts(env: Env, s: State, p: RawPacket, connect: Connect)
    ensures !NamesChannel(p.payload) && !IsPlayDisconnect(p.id) ==>
              HandleBackend(env, s, p, connect).0.world.clientWrites == s.world.clientWrites + 1
  {
    hide Forwarded, Track, TrackContainer, IsProtected, Frame, NamesChannel, IsLoginPlay;
    ProtectedIff(p);
  }

  /**
   * In every run in which all writes succeed, a turn ends the session exactly when the client left or shutdown
   * was asked for, or when the backend was lost or disconnected and cannot be made up for. In particular no
   * client packet ends it, whatever a script makes of it.
   */
  lemma SessionEndsOnlyThen(env: Env, server: Bytes, client: Option<nat>, backend: Option<nat>, cache: Registry.Cache,
                            events: seq<Event>, n: nat)
    requires server in env.servers && n < |events|
    requires (forall i :: env.clientTakes(i)) && (forall i :: env.backendTakes(i))
    ensures var s := Start(server, client, backend, cache);
            Run(env, s, events[..n]).running ==>
              (Run(env, s, events[..n + 1]).running <==> LetsGoOn(env, Run(env, s, events[..n]), events[n]))
  {
    hide Run, Step, LetsGoOn, Bounded;
    var s := Start(server, client, backend, cache);
    FailoverIsBounded(env, server, client, backend, cache, events[..n]);
    RunOneMore(env, s, events, n);
    if Run(env, s, events[..n]).running {
      TurnGoesOn(env, Run(env, s, events[..n]), events[n]);
    }
  }

  lemma RunOneMore(env: Env, s: State, events: seq<Event>, n: nat)
    requires n < |events|
    ensures Run(env, s, events[..n + 1]) == Step(env, Run(env, s, events[..n]), events[n])
  {
    hide Step;
    assert events[..n + 1][..n] == events[..n];
  }

  // ----- Where the session is -----

  /** The script's message, if there is one, reached the client. */
  predicate MessageTaken(env: Env, s: State, script: CommandResult)
  {
    script.message != [] ==> env.clientTakes(s.world.clientWrites)
  }

  /** The server a turn moves the session to, if any. */
  ghost function Destination(env: Env, s: State, e: Event): Option<Bytes>
  {
    match e
    case ClientPacket(p, script, _, connect) =>
      if !NamesChannel(p.payload) && Intercepted(p, env.version) && script.reroute != []
         && MessageTaken(env, s, script) && Reachable(env, script.reroute, connect)
      then Some(script.reroute) else None
    case BackendPacket(p, connect) =>
      if !NamesChannel(p.payload) && IsPlayDisconnect(p.id) && MadeUp(env, s, connect) then Some(env.defaultServer) else None
    case BackendGone(connect) => if MadeUp(env, s, connect) then Some(env.defaultServer) else None
    case _ => None
  }

  /** The session is on `target` over a new connection, and waits for its Login with a clean slate. */
  ghost predicate MovedTo(s: State, s': State, target: Bytes)
  {
    && s'.currentServer == target && s'.backend == Some(|s.world.conns|) && s'.transferPending
    && |s'.world.conns| == |s.world.conns| + 1 && s'.world.conns[|s.world.conns|].server == target
    && s'.backendThreshold == s'.world.conns[|s.world.conns|].threshold
    && s'.shadow == NOTHING && s'.openContainer == None
  }

  /** The session is where it was; at most its backend was closed. */
  ghost predicate Stayed(s: State, s': State)
  {
    && s'.currentServer == s.currentServer && |s'.world.conns| == |s.world.conns| && s'.backendThreshold == s.backendThreshold
    && (s'.backend == s.backend || s'.backend.None?)
  }

  ghost predicate Moves(s: State, s': State, destination: Option<Bytes>)
  {
    if destination.Some? then MovedTo(s, s', destination.value) else Stayed(s, s')
  }

  /** How many moves were asked for by the client and how many made up for a lost backend. */
  ghost predicate Tallies(s: State, s': State, requested: bool, fallback: bool)
  {
    && s'.world.requested == s.world.requested + (if requested then 1 else 0)
    && s'.world.fallbacks == s.world.fallbacks + (if fallback then 1 else 0)
  }

  lemma SwitchMoves(env: Env, s: State, target: Bytes, connect: Connect)
    ensures Moves(s, Switch(env, s, target, connect).0, if Reachable(env, target, connect) then Some(target) else None)
    ensures Tallies(s, Switch(env, s, target, connect).0, false, false)
  {
    hide Switch, Reachable, Succeeds, CachedFrom;
    SwitchIsAllOrNothing(env, s, target, connect);
  }

  lemma FailOverMoves(env: Env, s: State, notice: Notice, connect: Connect)
    ensures Moves(s, FailOver(env, s, notice, connect).0,
                  if Reachable(env, env.defaultServer, connect) then Some(env.defaultServer) else None)
    ensures Tallies(s, FailOver(env, s, notice, connect).0, false, Reachable(env, env.defaultServer, connect))
  {
    hide Switch, Frame, Reachable;
    FailOverResult(env, s, notice, connect);
    SwitchMoves(env, Send(env, s, Chat(env, notice)), env.defaultServer, connect);
  }

  lemma SendStays(env: Env, s: State, p: RawPacket, origin: Origin)
    ensures var s' := SendClient(env, s, p, origin).0; Stayed(s, s') && Tallies(s, s', false, false)
  {
    hide Frame;
  }

  lemma SendBackendStays(env: Env, s: State, p: RawPacket)
    ensures var s' := SendBackend(env, s, p).0; Stayed(s, s') && Tallies(s, s', false, false)
  {
    hide Frame;
  }

  lemma SameIsStayed(s: State)
    ensures Stayed(s, s) && Tallies(s, s, false, false)
  {}

  /** Counting a requested move does not undo it. */
  lemma CountingMoves(s: State, s': State, target: Bytes)
    ensures MovedTo(s, s', target) ==> MovedTo(s, s'.(world := s'.world.(requested := s'.world.requested + 1)), target)
  {}

  lemma AfterCommandMoves(env: Env, s: State, p: RawPacket, script: CommandResult, suggestions: Option<Bytes>, connect: Connect)
    ensures var reroutes := Intercepted(p, env.version) && script.reroute != [] && Reachable(env, script.reroute, connect);
            && Moves(s, AfterCommand(env, s, p, script, suggestions, connect).0, if reroutes then Some(script.reroute) else None)
            && Tallies(s, AfterCommand(env, s, p, script, suggestions, connect).0, reroutes, false)
  {
    hide Switch, SendClient, SendBackend, Reachable, Intercepted, DecodesAsTabRequest, Succeeds, CachedFrom, MovedTo, Installed, Untouched;
    SwitchIsAllOrNothing(env, s, script.reroute, connect);
    if suggestions.Some? {
      SendStays(env, s, RawPacket(TabResponseId(env.version), suggestions.value), FromProxy);
    }
    SendBackendStays(env, s, p);
    SameIsStayed(s);
    CountingMoves(s, Switch(env, s, script.reroute, connect).0, script.reroute);
    SwitchMoves(env, s, script.reroute, connect);
  }

  lemma HandleClientMoves(env: Env, s: State, p: RawPacket, script: CommandResult, suggestions: Option<Bytes>, connect: Connect)
    ensures var s', to := HandleClient(env, s, p, script, suggestions, connect).0, Destination(env, s, ClientPacket(p, script, suggestions, connect));
            Moves(s, s', to) && Tallies(s, s', to.Some?, false)
  {
    hide AfterCommand, Frame, Reachable, Intercepted, NamesChannel, IsProtected, IsServerboundClose, Chat;
    ProtectedIff(p);
    var s1 := if IsServerboundClose(p.id, env.version) then s.(openContainer := None) else s;
    AfterCommandMoves(env, s1, p, script, suggestions, connect);
    AfterCommandMoves(env, SendClient(env, s1, Chat(env, ScriptMessage(script.message)), FromProxy).0, p, script, suggestions, connect);
  }

  lemma HandleBackendMoves(env: Env, s: State, p: RawPacket, connect: Connect)
    ensures var s', to := HandleBackend(env, s, p, connect).0, Destination(env, s, BackendPacket(p, connect));
            Moves(s, s', to) && Tallies(s, s', false, to.Some?)
  {
    hide FailOver, SendClient, Forwarded, Track, TrackContainer, Reachable, NamesChannel, IsProtected, IsLoginPlay;
    ProtectedIff(p);
    var conn := if s.backend.Some? then s.backend.value else 0;
    var s1 := s.(openContainer := TrackContainer(s.openContainer, p, env.version), shadow := Track(s.shadow, p, env.version),
                 world := s.world.(inbox := s.world.inbox + [Inbound(conn, p)]));
    if !IsProtected(p) {
      if IsPlayDisconnect(p.id) {
        FailOverMoves(env, s1, BackendDisconnected(s.currentServer), connect);
      } else {
        var out := Forwarded(env, s.transferPending, p, conn);
        SendStays(env, s1, out.packet, out.origin);
        SendStays(env, s1.(transferPending := false), out.packet, out.origin);
      }
    }
  }

  /**
   * A turn moves the session exactly when a script reroutes to a reachable server, or a backend that was not the
   * default one disconnects or is lost while the default one is reachable; otherwise the session stays.
   */
  lemma TurnMoves(env: Env, s: State, e: Event)
    requires s.running && s.backend.Some?
    ensures Moves(s, Step(env, s, e), Destination(env, s, e))
    ensures Tallies(s, Step(env, s, e), Destination(env, s, e).Some? && e.ClientPacket?, Destination(env, s, e).Some? && !e.ClientPacket?)
    ensures Destination(env, s, e).Some? ==> Step(env, s, e).running
  {
    hide HandleClient, HandleBackend, FailOver, Frame, NamesChannel, Reachable, Intercepted;
    match e {
      case ClientPacket(p, script, suggestions, connect) =>
        HandleClientMoves(env, s, p, script, suggestions, connect);
        HandleClientResult(env, s, p, script, suggestions, connect);
        RerouteGoesOn(env, s, p, script, suggestions, connect);
      case BackendPacket(p, connect) =>
        HandleBackendMoves(env, s, p, connect);
        HandleBackendResult(env, s, p, connect);
      case BackendGone(connect) =>
        FailOverMoves(env, s, ConnectionLost(s.currentServer), connect);
        FailOverResult(env, s, ConnectionLost(s.currentServer), connect);
      case _ =>
    }
  }

  lemma RerouteGoesOn(env: Env, s: State, p: RawPacket, script: CommandResult, suggestions: Option<Bytes>, connect: Connect)
    ensures Destination(env, s, ClientPacket(p, script, suggestions, connect)).Some? ==>
              HandleClient(env, s, p, script, suggestions, connect).1 == Ok(true)
  {
    hide Switch, Frame, Reachable, Intercepted, NamesChannel, IsProtected, IsServerboundClose, Chat, Succeeds, CachedFrom, DecodesAsTabRequest;
    ProtectedIff(p);
    var s1 := if IsServerboundClose(p.id, env.version) then s.(openContainer := None) else s;
    SwitchIsAllOrNothing(env, s1, script.reroute, connect);
    SwitchIsAllOrNothing(env, SendClient(env, s1, Chat(env, ScriptMessage(script.message)), FromProxy).0, script.reroute, connect);
  }

  // ----- What the proxy says -----

  /** What a switch sends the client: why it failed, or what clears the screen. */
  ghost function SwitchSays(env: Env, s: State, target: Bytes, connect: Connect): seq<RawPacket>
  {
    if target !in env.servers then [Chat(env, ServerNotFound(target))]
    else if Reachable(env, target, connect) then TeardownPackets(env, s)
    else [Chat(env, ConnectFailed(target))]
  }

  /** `s` once the client was sent `n` packets and, if `close`, the tracked window was closed by the client. */
  function Later(s: State, n: nat, close: bool): State
  {
    s.(openContainer := if close then None else s.openContainer, world := s.world.(clientWrites := s.world.clientWrites + n))
  }

  /** The proxy's own packets in a turn: the script's message, an answer, notices, and what a switch says. */
  ghost function Says(env: Env, s: State, e: Event): seq<RawPacket>
  {
    match e
    case ClientPacket(p, script, suggestions, connect) =>
      if NamesChannel(p.payload) then []
      else
        var command, close := Intercepted(p, env.version), IsServerboundClose(p.id, env.version);
        var message := if command && script.message != [] then [Chat(env, ScriptMessage(script.message))] else [];
        message + Answers(env, Later(s, |message|, close), p, script, suggestions, connect)
    case BackendPacket(p, connect) =>
      if NamesChannel(p.payload) || !IsPlayDisconnect(p.id) || s.currentServer == env.defaultServer then []
      else [Chat(env, BackendDisconnected(s.currentServer))] + SwitchSays(env, Later(s, 1, false), env.defaultServer, connect)
    case BackendGone(connect) =>
      if s.currentServer == env.defaultServer then []
      else [Chat(env, ConnectionLost(s.currentServer))] + SwitchSays(env, Later(s, 1, false), env.defaultServer, connect)
    case ClientGone => []
    case ShutdownSignal => [RawPacket(ShutdownId(env.version), env.shutdownPayload)]
  }

  /** The client log gained exactly the proxy's packets `ps`, unless a write to the client failed. */
  ghost predicate Tells(s: State, s': State, ps: seq<RawPacket>)
  {
    KeepsFailure(s, s') && (s'.world.clientIntact ==> s'.world.clientLog == s.world.clientLog + AsProxy(ps))
  }

  lemma TellsNothing(s: State, s': State)
    requires s'.world.clientLog == s.world.clientLog && s'.world.clientIntact == s.world.clientIntact
    ensures Tells(s, s', [])
  {
    assert s.world.clientLog + AsProxy([]) == s.world.clientLog;
  }

  lemma SendTells(env: Env, s: State, p: RawPacket)
    ensures Tells(s, SendClient(env, s, p, FromProxy).0, [p])
  {
    SendAppends(env, s, p, FromProxy);
    assert AsProxy([p]) == [Sent(p, FromProxy)];
  }

  lemma TellsBoth(s: State, s1: State, s2: State, ps: seq<RawPacket>, qs: seq<RawPacket>)
    requires Tells(s, s1, ps) && Tells(s1, s2, qs)
    ensures Tells(s, s2, ps + qs)
  {
    assert AsProxy(ps + qs) == AsProxy(ps) + AsProxy(qs);
    assert s.world.clientLog + AsProxy(ps + qs) == (s.world.clientLog + AsProxy(ps)) + AsProxy(qs);
  }

  lemma SwitchTells(env: Env, s: State, target: Bytes, connect: Connect)
    ensures Tells(s, Switch(env, s, target, connect).0, SwitchSays(env, s, target, connect))
  {
    hide Switch, FrameAll, Packets, AsProxy, TeardownPackets, Chat, Reachable, Succeeds;
    SwitchGives(env, s, target, connect);
    SucceedsIffReachable(env, s, target, connect);
  }

  /** What a switch says depends on the window, the shadow and the number of packets sent. */
  lemma SwitchSaysSame(env: Env, s: State, s0: State, target: Bytes, connect: Connect)
    requires s0.shadow == s.shadow && s0.openContainer == s.openContainer && s0.world.clientWrites == s.world.clientWrites
    ensures SwitchSays(env, s0, target, connect) == SwitchSays(env, s, target, connect)
  {
    hide TeardownPackets, Chat, Reachable;
    TeardownDependsOn(env, s, s0);
  }

  lemma FailOverTells(env: Env, s: State, notice: Notice, connect: Connect)
    ensures Tells(s, FailOver(env, s, notice, connect).0,
                  [Chat(env, notice)] + SwitchSays(env, Later(s, 1, false), env.defaultServer, connect))
  {
    hide Switch, SendClient, Chat, SwitchSays, AsProxy;
    var chat := Chat(env, notice);
    var s1 := SendClient(env, s, chat, FromProxy).0;
    SendTells(env, s, chat);
    SendAppends(env, s, chat, FromProxy);
    SendCounts(env, s, chat, FromProxy);
    SwitchTells(env, s1, env.defaultServer, connect);
    SwitchSaysSame(env, s1, Later(s, 1, false), env.defaultServer, connect);
    TellsBoth(s, s1, Switch(env, s1, env.defaultServer, connect).0, [chat], SwitchSays(env, s1, env.defaultServer, connect));
  }

  /** What is said once the script's message has been shown. */
  ghost function Answers(env: Env, s: State, p: RawPacket, script: CommandResult, suggestions: Option<Bytes>, connect: Connect): seq<RawPacket>
  {
    if Intercepted(p, env.version) && script.reroute != [] then SwitchSays(env, s, script.reroute, connect)
    else if Intercepted(p, env.version) && script.cancel then []
    else if DecodesAsTabRequest(p, env.version) && suggestions.Some? then [RawPacket(TabResponseId(env.version), suggestions.value)]
    else []
  }

  lemma AfterCommandTells(env: Env, s: State, p: RawPacket, script: CommandResult, suggestions: Option<Bytes>, connect: Connect)
    ensures Tells(s, AfterCommand(env, s, p, script, suggestions, connect).0, Answers(env, s, p, script, suggestions, connect))
  {
    hide Switch, SendClient, SwitchSays, Intercepted, DecodesAsTabRequest, AsProxy, Frame;
    SwitchTells(env, s, script.reroute, connect);
    TellsNothing(s, s);
    TellsNothing(s, SendBackend(env, s, p).0);
    if suggestions.Some? {
      SendTells(env, s, RawPacket(TabResponseId(env.version), suggestions.value));
    }
  }

  lemma AnswersSame(env: Env, s: State, s0: State, p: RawPacket, script: CommandResult, suggestions: Option<Bytes>, connect: Connect)
    requires s0.shadow == s.shadow && s0.openContainer == s.openContainer && s0.world.clientWrites == s.world.clientWrites
    ensures Answers(env, s0, p, script, suggestions, connect) == Answers(env, s, p, script, suggestions, connect)
  {
    hide SwitchSays, Intercepted, DecodesAsTabRequest;
    SwitchSaysSame(env, s, s0, script.reroute, connect);
  }

  lemma HandleClientTells(env: Env, s: State, p: RawPacket, script: CommandResult, suggestions: Option<Bytes>, connect: Connect)
    ensures Tells(s, HandleClient(env, s, p, script, suggestions, connect).0, Says(env, s, ClientPacket(p, script, suggestions, connect)))
  {
    hide AfterCommand, SendClient, Answers, Intercepted, NamesChannel, IsProtected, IsServerboundClose, Chat, Tells;
    ProtectedIff(p);
    var s' := HandleClient(env, s, p, script, suggestions, connect).0;
    if IsProtected(p) {
      TellsNothing(s, s);
    } else {
      var close := IsServerboundClose(p.id, env.version);
      var s1 := if close then s.(openContainer := None) else s;
      if Intercepted(p, env.version) && script.message != [] {
        MessageTells(env, s1, p, script, suggestions, connect);
        AnswersSame(env, Later(s1, 1, false), Later(s, 1, close), p, script, suggestions, connect);
        SameWorldTells(s, s1, s', Says(env, s, ClientPacket(p, script, suggestions, connect)));
      } else {
        AfterCommandTells(env, s1, p, script, suggestions, connect);
        AnswersSame(env, s1, Later(s, 0, close), p, script, suggestions, connect);
        var answers := Answers(env, s1, p, script, suggestions, connect);
        assert [] + answers == answers;
        SameWorldTells(s, s1, s', answers);
      }
    }
  }

  lemma SameWorldTells(s: State, s1: State, s': State, ps: seq<RawPacket>)
    requires s1.world == s.world
    ensures Tells(s1, s', ps) <==> Tells(s, s', ps)
  {}

  /** The script's message, then, if it was taken, the rest. */
  lemma MessageTells(env: Env, s: State, p: RawPacket, script: CommandResult, suggestions: Option<Bytes>, connect: Connect)
    ensures var chat := Chat(env, ScriptMessage(script.message)); var (s2, ok) := SendClient(env, s, chat, FromProxy);
            Tells(s, if ok then AfterCommand(env, s2, p, script, suggestions, connect).0 else s2,
                  [chat] + Answers(env, Later(s, 1, false), p, script, suggestions, connect))
  {
    hide AfterCommand, SendClient, Answers, Chat, AsProxy;
    var chat := Chat(env, ScriptMessage(script.message));
    var s2 := SendClient(env, s, chat, FromProxy).0;
    SendTells(env, s, chat);
    SendAppends(env, s, chat, FromProxy);
    SendCounts(env, s, chat, FromProxy);
    AfterCommandTells(env, s2, p, script, suggestions, connect);
    AnswersSame(env, s2, Later(s, 1, false), p, script, suggestions, connect);
    TellsBoth(s, s2, AfterCommand(env, s2, p, script, suggestions, connect).0, [chat], Answers(env, s2, p, script, suggestions, connect));
  }

  /** A disconnect of the backend touches nothing that is tracked. */
  lemma DisconnectIsUntracked(s: State, p: RawPacket, version: int)
    requires IsPlayDisconnect(p.id)
    ensures TrackContainer(s.openContainer, p, version) == s.openContainer && Track(s.shadow, p, version) == s.shadow
  {
    hide BossBarId, ObjectiveId, DisplaySlotId, StopSoundId, IsSound, Track, IsLoginPlay;
    WatchedIsNoOther(PlayDisconnect, p.id, version);
    UntrackedChangesNothing(s.shadow, p, version);
  }

  lemma HandleBackendTells(env: Env, s: State, p: RawPacket, connect: Connect)
    requires s.running && s.backend.Some?
    ensures var s', e := HandleBackend(env, s, p, connect).0, BackendPacket(p, connect);
            && KeepsFailure(s, s')
            && (s'.world.clientIntact ==> s'.world.clientLog == s.world.clientLog + AsProxy(Says(env, s, e)) + Passing(env, s, e))
  {
    hide FailOver, Forwarded, Track, TrackContainer, SendClient, SwitchSays, AsProxy, NamesChannel, IsProtected, IsLoginPlay, Chat;
    ProtectedIff(p);
    var conn, e := s.backend.value, BackendPacket(p, connect);
    var s1 := s.(openContainer := TrackContainer(s.openContainer, p, env.version), shadow := Track(s.shadow, p, env.version),
                 world := s.world.(inbox := s.world.inbox + [Inbound(conn, p)]));
    assert AsProxy([]) == [] by { EmptyLog(); }
    if IsProtected(p) {
      assert s.world.clientLog + [] + [] == s.world.clientLog;
    } else if IsPlayDisconnect(p.id) {
      DisconnectIsUntracked(s, p, env.version);
      FailOverTells(env, s1, BackendDisconnected(s.currentServer), connect);
      SwitchSaysSame(env, Later(s1, 1, false), Later(s, 1, false), env.defaultServer, connect);
      var log := HandleBackend(env, s, p, connect).0.world.clientLog;
      assert log + [] == log && s.world.clientLog + [] + [] == s.world.clientLog;
    } else {
      var out := Forwarded(env, s.transferPending, p, conn);
      SendAppends(env, s1, out.packet, out.origin);
      SendAppends(env, s1.(transferPending := false), out.packet, out.origin);
      assert s.world.clientLog + [] == s.world.clientLog;
    }
  }

  lemma EmptyLog()
    ensures AsProxy([]) == []
  {}

  /** What the client is sent in a turn: the proxy's own packets, then what a backend packet becomes, and nothing else. */
  lemma TurnTells(env: Env, s: State, e: Event)
    requires s.running && s.backend.Some?
    ensures var s' := Step(env, s, e);
            s'.world.clientIntact ==> s'.world.clientLog == s.world.clientLog + AsProxy(Says(env, s, e)) + Passing(env, s, e)
  {
    hide HandleClient, HandleBackend, FailOver, SendClient, SwitchSays, AsProxy, NamesChannel, Chat, Forwarded;
    if e.BackendPacket? {
      HandleBackendTells(env, s, e.packet, e.connect);
    } else {
      var s' := Step(env, s, e);
      TellsNothing(s, s);
      match e {
        case ClientPacket(p, script, suggestions, connect) => HandleClientTells(env, s, p, script, suggestions, connect);
        case BackendGone(connect) => FailOverTells(env, s, ConnectionLost(s.currentServer), connect);
        case ShutdownSignal => SendTells(env, s, RawPacket(ShutdownId(env.version), env.shutdownPayload));
        case ClientGone =>
      }
      assert s'.world.clientLog + [] == s'.world.clientLog;
    }
  }

  // ----- The tracked window -----

  /** A packet that opens a window is tracked by the low byte of its number, one that closes it ends that. */
  lemma WindowIsTracked(c: Option<byte>, id: i32, window: i32, rest: Bytes, version: int)
    ensures TrackContainer(c, RawPacket(id, EncodeVarInt(window) + rest), version) ==
            if IsOpenWindow(id, version) then Some(window % 256) else if id == CloseContainerId(version) then None else c
  {
    hide EncodeVarInt, DecodeVarInt, IsOpenWindow, CloseContainerId;
    AtSelf(EncodeVarInt(window), rest);
    VarIntRoundTrip(EncodeVarInt(window) + rest, 0, window);
  }

  /** The window tracked after a turn in which the session stays. */
  function NextWindow(env: Env, s: State, e: Event): Option<byte>
  {
    match e
    case ClientPacket(p, _, _, _) => if !IsProtected(p) && IsServerboundClose(p.id, env.version) then None else s.openContainer
    case BackendPacket(p, _) => if IsProtected(p) then s.openContainer else TrackContainer(s.openContainer, p, env.version)
    case _ => s.openContainer
  }

  lemma SwitchWindow(env: Env, s: State, target: Bytes, connect: Connect)
    ensures !Reachable(env, target, connect) ==> Switch(env, s, target, connect).0.openContainer == s.openContainer
  {
    hide Switch, Reachable, Succeeds, CachedFrom;
    SwitchIsAllOrNothing(env, s, target, connect);
  }

  /** A turn that does not move the session follows the windows that backend and client open and close; a move forgets them. */
  lemma TurnWindow(env: Env, s: State, e: Event)
    requires s.running && s.backend.Some?
    ensures Step(env, s, e).openContainer == if Destination(env, s, e).Some? then None else NextWindow(env, s, e)
  {
    hide HandleClient, HandleBackend, FailOver, Frame, NamesChannel, Reachable, Intercepted, TrackContainer, IsProtected, IsServerboundClose;
    TurnMoves(env, s, e);
    match e {
      case ClientPacket(p, script, suggestions, connect) => ClientWindow(env, s, p, script, suggestions, connect);
      case BackendPacket(p, connect) => BackendWindow(env, s, p, connect);
      case BackendGone(connect) => FailOverWindow(env, s, ConnectionLost(s.currentServer), connect);
      case _ =>
    }
  }

  lemma FailOverWindow(env: Env, s: State, notice: Notice, connect: Connect)
    ensures !Reachable(env, env.defaultServer, connect) ==> FailOver(env, s, notice, connect).0.openContainer == s.openContainer
  {
    hide Switch, Frame, Reachable, Chat;
    SwitchWindow(env, Send(env, s, Chat(env, notice)), env.defaultServer, connect);
  }

  lemma BackendWindow(env: Env, s: State, p: RawPacket, connect: Connect)
    ensures Destination(env, s, BackendPacket(p, connect)).None? ==>
              HandleBackend(env, s, p, connect).0.openContainer == NextWindow(env, s, BackendPacket(p, connect))
  {
    hide FailOver, Frame, Forwarded, Track, TrackContainer, Reachable, NamesChannel, IsProtected, IsLoginPlay;
    ProtectedIff(p);
    var conn := if s.backend.Some? then s.backend.value else 0;
    var s1 := s.(openContainer := TrackContainer(s.openContainer, p, env.version), shadow := Track(s.shadow, p, env.version),
                 world := s.world.(inbox := s.world.inbox + [Inbound(conn, p)]));
    FailOverWindow(env, s1, BackendDisconnected(s.currentServer), connect);
  }

  lemma ClientWindow(env: Env, s: State, p: RawPacket, script: CommandResult, suggestions: Option<Bytes>, connect: Connect)
    ensures var e := ClientPacket(p, script, suggestions, connect);
            Destination(env, s, e).None? ==> HandleClient(env, s, p, script, suggestions, connect).0.openContainer == NextWindow(env, s, e)
  {
    hide AfterCommand, Frame, Reachable, NamesChannel, IsProtected, IsServerboundClose, Chat, Intercepted;
    ProtectedIff(p);
    var s1 := if IsServerboundClose(p.id, env.version) then s.(openContainer := None) else s;
    AfterCommandWindow(env, s1, p, script, suggestions, connect);
    AfterCommandWindow(env, SendClient(env, s1, Chat(env, ScriptMessage(script.message)), FromProxy).0, p, script, suggestions, connect);
  }

  lemma AfterCommandWindow(env: Env, s: State, p: RawPacket, script: CommandResult, suggestions: Option<Bytes>, connect: Connect)
    ensures !(Intercepted(p, env.version) && script.reroute != [] && Reachable(env, script.reroute, connect)) ==>
              AfterCommand(env, s, p, script, suggestions, connect).0.openContainer == s.openContainer
  {
    hide Switch, Frame, Reachable, Intercepted, DecodesAsTabRequest;
    SwitchWindow(env, s, script.reroute, connect);
  }
}
