/** The main results about whole runs of a session. */
module SessionTheorems {
  import opened Wire
  import opened Codec
  import opened Display
  import opened PluginChannel
  import opened Routing
  import opened Transfers
  import opened Sessions
  import opened Runs
  import Registry

  // ----- The assumed laws can be met -----

  ghost function Enumerate<T(!new)>(s: set<T>): (xs: seq<T>)
    ensures Enumerates(xs, s)
    decreases |s|
  {
    if s == {} then [] else
      var x :| x in s;
      var rest := Enumerate(s - {x});
      assert forall y :: y in [x] + rest <==> y in s;
      [x] + rest
  }

  /** An environment that obeys every law the results rely on, for any version and server list; all writes succeed. */
  ghost function SampleEnv(version: int, servers: seq<Bytes>): (env: Env)
    ensures env.Lawful() && env.version == version && env.servers == servers && env.defaultServer == []
    ensures forall n :: env.clientTakes(n) && env.backendTakes(n)
  {
    var zlib := Zlib((x: Bytes) => x, (x: Bytes, n: nat) => Ok(x[..Min(n, |x|)]));
    assert zlib.Lawful();
    var names := (n: nat, s: set<Bytes>) => Enumerate(s);
    var slots := (n: nat, s: set<i32>) => Enumerate(s);
    Env(version, servers, [], zlib, (x: Bytes) => x, (x: Notice) => [], [], (n: nat) => true, (n: nat) => true, names, slots, names)
  }

  // ----- Runs keep the invariants -----

  lemma StartHolds(env: Env, server: Bytes, client: Option<nat>, backend: Option<nat>, cache: Registry.Cache)
    requires server in env.servers
    ensures Inv(env, client, Start(server, client, backend, cache))
  {}

  lemma StepKeepsInv(env: Env, threshold: Option<nat>, s: State, e: Event)
    requires env.Lawful() && Inv(env, threshold, s)
    ensures Inv(env, threshold, Step(env, s, e))
  {
    hide Inv, HandleClient, HandleBackend, HandleEof, SendClient, QuietId;
    KeepBookkeeping(env, threshold, s, s.(running := false));
    KeepBookkeeping(env, threshold, s, s.(running := false, backend := None));
    if s.running && s.backend.Some? {
      match e {
        case ClientPacket(p, script, suggestions, connect) =>
          KeepHandleClient(env, threshold, s, p, script, suggestions, connect);
          KeepContinue(env, threshold, HandleClient(env, s, p, script, suggestions, connect));
        case ClientGone =>
        case BackendPacket(p, connect) =>
          KeepHandleBackend(env, threshold, s, p, connect);
          KeepContinue(env, threshold, HandleBackend(env, s, p, connect));
        case BackendGone(connect) =>
          KeepEof(env, threshold, s, connect);
          KeepContinue(env, threshold, HandleEof(env, s, connect));
        case ShutdownSignal =>
          var p := RawPacket(ShutdownId(env.version), env.shutdownPayload);
          ShutdownIsQuiet(env);
          KeepQuiet(env, threshold, s, p);
          SendUnfolds(env, s, p);
          var s1 := Send(env, s, p);
          KeepBookkeeping(env, threshold, s1, s1.(running := false, backend := None));
      }
    }
  }

  lemma ShutdownIsQuiet(env: Env)
    ensures QuietId(ShutdownId(env.version), env.version)
  {}

  lemma KeepContinue(env: Env, threshold: Option<nat>, r: (State, Result<bool>))
    requires Inv(env, threshold, r.0)
    ensures Inv(env, threshold, Continue(r))
  {
    hide Inv;
    KeepBookkeeping(env, threshold, r.0, r.0.(running := false));
    KeepBookkeeping(env, threshold, r.0, r.0.(running := false, backend := None));
  }

  lemma KeepEof(env: Env, threshold: Option<nat>, s: State, connect: Connect)
    requires env.Lawful() && Inv(env, threshold, s)
    ensures Inv(env, threshold, HandleEof(env, s, connect).0)
  {
    hide Inv, FailOver;
    KeepFailOver(env, threshold, s, ConnectionLost(s.currentServer), connect);
  }

  lemma {:induction false} RunKeepsInv(env: Env, threshold: Option<nat>, s: State, events: seq<Event>)
    requires env.Lawful() && Inv(env, threshold, s)
    ensures Inv(env, threshold, Run(env, s, events))
    decreases |events|
  {
    hide Inv, Step;
    if events != [] {
      RunKeepsInv(env, threshold, s, events[..|events| - 1]);
      StepKeepsInv(env, threshold, Run(env, s, events[..|events| - 1]), events[|events| - 1]);
    }
  }

  // ----- The shadow mirrors the client -----

  /** The tracked sets and the audio flag are what replaying the packets sent to the client yields. */
  ghost predicate ExactMirror(env: Env, s: State)
  {
    s.world.clientIntact ==> s.shadow == Replay(Packets(s.world.clientLog), env.version)
  }

  /**
   * In every reachable state of every version, while client writes succeeded, the tracked boss bars,
   * objectives and display slots are exactly what replaying the packets sent to the client yields, and
   * tracked audio is audible; where the ids of sounds are unmistakable, the audio flag is exact too.
   */
  lemma ShadowMirrorsClient(env: Env, server: Bytes, client: Option<nat>, backend: Option<nat>, cache: Registry.Cache, events: seq<Event>)
    requires env.Lawful() && server in env.servers
    ensures var s := Run(env, Start(server, client, backend, cache), events);
            var shown := Replay(Packets(s.world.clientLog), env.version);
            && (s.world.clientIntact ==>
                  && s.shadow.bars == shown.bars && s.shadow.objectives == shown.objectives && s.shadow.slots == shown.slots
                  && (s.shadow.audio ==> shown.audio))
            && (SoundsAreUnmistakable(env.version) ==> ExactMirror(env, s))
  {
    hide Run, Replay, Packets, Wires, Placed, LoginsKept, WellFormedShadow;
    StartHolds(env, server, client, backend, cache);
    RunKeepsInv(env, client, Start(server, client, backend, cache), events);
  }

  /**
   * After any switch that returns Ok(true) nothing is tracked, and the client displays nothing; only
   * where sounds can be mistaken may it still be playing one.
   */
  lemma SwitchLeavesNothingDisplayed(env: Env, threshold: Option<nat>, s: State, target: Bytes, connect: Connect)
    requires env.Lawful() && Inv(env, threshold, s)
    requires Switch(env, s, target, connect).1 == Ok(true)
    ensures var s' := Switch(env, s, target, connect).0; var shown := Replay(Packets(s'.world.clientLog), env.version);
            && s'.shadow == NOTHING && s'.openContainer == None
            && (s'.world.clientIntact ==>
                  shown.(audio := false) == NOTHING && (SoundsAreUnmistakable(env.version) ==> shown == NOTHING))
  {
    hide Switch, Replay, Packets, Wires, Placed, LoginsKept, WellFormedShadow, Succeeds;
    SwitchIsAllOrNothing(env, s, target, connect);
    KeepSwitch(env, threshold, s, target, connect);
  }

  // ----- Logins -----

  /**
   * What became of every Login, in every run: of a later connection the first one reached the client as
   * a Respawn made from it; all others, and all of the first connection, reached it as they are.
   */
  lemma LoginsAreAccountedFor(env: Env, server: Bytes, client: Option<nat>, backend: Option<nat>, cache: Registry.Cache,
                              events: seq<Event>, k: nat)
    requires env.Lawful() && server in env.servers
    ensures var w := Run(env, Start(server, client, backend, cache), events).world; var v := env.version;
            && (forall i :: 0 <= i < |w.clientLog| ==> IsGenuine(w.clientLog[i], w.inbox, v))
            && (forall i :: 0 <= i < |w.clientLog| && IsLoginPlay(w.clientLog[i].packet.id, v) ==> w.clientLog[i].origin.Relayed?)
            && (w.clientIntact ==>
                  && CountTranslated(w.clientLog, k) == (if k >= 1 && CountLogins(w.inbox, k, v) >= 1 then 1 else 0)
                  && CountRelayed(w.clientLog, k, v) + CountTranslated(w.clientLog, k) == CountLogins(w.inbox, k, v))
            && Accounted(w.clientLog, w.inbox, w.clientIntact, k, v)
  {
    hide Run, IsLoginPlay, IsGenuine, CountRelayed, CountTranslated, CountLogins, Mirrors, Wires, Placed;
    StartHolds(env, server, client, backend, cache);
    RunKeepsInv(env, client, Start(server, client, backend, cache), events);
    var w := Run(env, Start(server, client, backend, cache), events).world;
    assert Accounted(w.clientLog, w.inbox, w.clientIntact, k, env.version);
  }

  lemma {:induction false} CountRelayedPositive(log: seq<Sent>, k: nat, version: int)
    ensures CountRelayed(log, k, version) > 0 <==> exists i :: 0 <= i < |log| && IsRelayedLogin(log[i], k, version)
  {
    hide IsRelayedLogin;
    if log != [] {
      var n := |log| - 1;
      CountRelayedPositive(log[..n], k, version);
      if i :| 0 <= i < n && IsRelayedLogin(log[i], k, version) {
        assert IsRelayedLogin(log[..n][i], k, version);
      }
    }
  }

  /** A Login of a later backend reaches the client exactly when that backend sent more than one. */
  lemma LaterLoginReachesTheClientIff(env: Env, server: Bytes, client: Option<nat>, backend: Option<nat>, cache: Registry.Cache,
                                      events: seq<Event>, k: nat)
    requires env.Lawful() && server in env.servers && k >= 1
    ensures var w := Run(env, Start(server, client, backend, cache), events).world; var v := env.version;
            var reached := exists i :: 0 <= i < |w.clientLog| && IsRelayedLogin(w.clientLog[i], k, v);
            && (reached ==> CountLogins(w.inbox, k, v) >= 2)
            && (w.clientIntact ==> (reached <==> CountLogins(w.inbox, k, v) >= 2))
  {
    hide Run, IsLoginPlay, IsGenuine, CountRelayed, CountTranslated, CountLogins, IsRelayedLogin;
    LoginsAreAccountedFor(env, server, client, backend, cache, events, k);
    CountRelayedPositive(Run(env, Start(server, client, backend, cache), events).world.clientLog, k, env.version);
  }

  lemma {:induction false} AllFromFirst(log: seq<Sent>, version: int)
    requires forall i :: 0 <= i < |log| && IsLoginPlay(log[i].packet.id, version) ==> log[i].origin == Relayed(0)
    ensures CountLoginsSent(log, version) == CountRelayed(log, 0, version)
  {
    hide IsLoginPlay;
    if log != [] {
      AllFromFirst(log[..|log| - 1], version);
    }
  }

  /**
   * If each connection sends at most one Login (Play), the client receives at most one, from the first
   * backend; and each later backend's handled Login reached the client as exactly one Respawn.
   */
  lemma OneLoginReachesTheClient(env: Env, server: Bytes, client: Option<nat>, backend: Option<nat>, cache: Registry.Cache, events: seq<Event>)
    requires env.Lawful() && server in env.servers
    requires OneLoginEach(Run(env, Start(server, client, backend, cache), events).world.inbox, env.version)
    ensures var w := Run(env, Start(server, client, backend, cache), events).world; var v := env.version;
            && (forall i :: 0 <= i < |w.clientLog| && IsLoginPlay(w.clientLog[i].packet.id, v) ==> w.clientLog[i].origin == Relayed(0))
            && CountLoginsSent(w.clientLog, v) <= 1
            && (w.clientIntact ==> forall k: nat :: k >= 1 ==> CountTranslated(w.clientLog, k) == CountLogins(w.inbox, k, v))
  {
    hide Run, IsLoginPlay, IsGenuine, CountLoginsSent, CountRelayed, CountTranslated, CountLogins;
    var w, v := Run(env, Start(server, client, backend, cache), events).world, env.version;
    forall k: nat
      ensures CountLogins(w.inbox, k, v) <= 1 && Accounted(w.clientLog, w.inbox, w.clientIntact, k, v)
    {
      LoginsAreAccountedFor(env, server, client, backend, cache, events, k);
    }
    forall i | 0 <= i < |w.clientLog| && IsLoginPlay(w.clientLog[i].packet.id, v) ensures w.clientLog[i].origin == Relayed(0) {
      LoginsAreAccountedFor(env, server, client, backend, cache, events, 0);
      var k := w.clientLog[i].origin.conn;
      if k >= 1 {
        assert IsRelayedLogin(w.clientLog[i], k, v);
        LaterLoginReachesTheClientIff(env, server, client, backend, cache, events, k);
      }
    }
    AllFromFirst(w.clientLog, v);
    assert CountLogins(w.inbox, 0, v) <= 1 && Accounted(w.clientLog, w.inbox, w.clientIntact, 0, v);
  }

  // ----- Compression -----

  /** A decoder at the connection's own threshold recovers exactly what was sent on it. */
  ghost predicate Recoverable(env: Env, c: Conn)
  {
    c.intact && AllFit(env.zlib, c.sent, MAX_PACKET, c.threshold) ==>
      ReadAll(env.zlib, c.wire, MAX_PACKET, c.threshold) == Ok(c.sent)
  }

  lemma WholeIsRecoverable(env: Env, c: Conn)
    requires env.Lawful() && Whole(env, c)
    ensures Recoverable(env, c)
  {
    hide FrameAll, ReadAll, AllFit;
    if c.intact && AllFit(env.zlib, c.sent, MAX_PACKET, c.threshold) {
      StreamRoundTrip(env.zlib, c.sent, MAX_PACKET, c.threshold);
    }
  }

  /**
   * Across any run of transfers among backends with differing thresholds, a client decoder fixed at the
   * initial threshold recovers exactly the packets emitted to it, and each backend's decoder at its own
   * threshold recovers exactly what was sent to it, as long as the packets meet the size limit.
   */
  lemma ThresholdsAreDecoupled(env: Env, server: Bytes, client: Option<nat>, backend: Option<nat>, cache: Registry.Cache, events: seq<Event>)
    requires env.Lawful() && server in env.servers
    ensures var w := Run(env, Start(server, client, backend, cache), events).world; var z := env.zlib;
            && (w.clientIntact && AllFit(z, Packets(w.clientLog), MAX_PACKET, client) ==>
                  ReadAll(z, w.clientWire, MAX_PACKET, client) == Ok(Packets(w.clientLog)))
            && (forall i :: 0 <= i < |w.conns| ==> Recoverable(env, w.conns[i]))
            && (forall i :: 0 <= i < |w.aborted| ==> Recoverable(env, w.aborted[i]))
  {
    hide Run, Packets, FrameAll, ReadAll, AllFit, Mirrors, Placed, LoginsKept, Whole, Recoverable;
    StartHolds(env, server, client, backend, cache);
    RunKeepsInv(env, client, Start(server, client, backend, cache), events);
    var w, z := Run(env, Start(server, client, backend, cache), events).world, env.zlib;
    if w.clientIntact && AllFit(z, Packets(w.clientLog), MAX_PACKET, client) {
      StreamRoundTrip(z, Packets(w.clientLog), MAX_PACKET, client);
    }
    forall i | 0 <= i < |w.conns| ensures Recoverable(env, w.conns[i]) {
      WholeIsRecoverable(env, w.conns[i]);
    }
    forall i | 0 <= i < |w.aborted| ensures Recoverable(env, w.aborted[i]) {
      WholeIsRecoverable(env, w.aborted[i]);
    }
  }

  // ----- Failover -----

  /** In place, and failovers outnumber requested switches by at most one, and only on the default server. */
  ghost predicate Bounded(env: Env, s: State)
  {
    && Placed(env, s)
    && s.world.fallbacks <= s.world.requested + (if s.currentServer == env.defaultServer then 1 else 0)
  }

  lemma BoundedQuiet(env: Env, s: State, p: RawPacket, origin: Origin)
    requires Bounded(env, s)
    ensures Bounded(env, SendClient(env, s, p, origin).0)
    ensures OnlyClientSide(s, SendClient(env, s, p, origin).0)
  {
    hide Frame;
  }

  lemma BoundedSendBackend(env: Env, s: State, p: RawPacket)
    requires Bounded(env, s)
    ensures Bounded(env, SendBackend(env, s, p).0)
  {
    hide Frame;
  }

  /** A switch moves to a configured server, or nowhere. */
  lemma BoundedSwitch(env: Env, s: State, target: Bytes, connect: Connect)
    requires Bounded(env, s)
    ensures var (s', r) := Switch(env, s, target, connect);
            && Placed(env, s') && s'.world.fallbacks == s.world.fallbacks && s'.world.requested == s.world.requested
            && (r == Ok(true) ==> s'.currentServer == target)
            && (r != Ok(true) ==> Bounded(env, s') && s'.currentServer == s.currentServer)
  {
    hide Switch, HandshakeWith;
    SwitchIsAllOrNothing(env, s, target, connect);
  }

  lemma BoundedFailOver(env: Env, s: State, notice: Notice, connect: Connect)
    requires Bounded(env, s) && s.currentServer != env.defaultServer
    ensures Bounded(env, FailOver(env, s, notice, connect).0)
  {
    hide Switch, SendClient;
    SendUnfolds(env, s, Chat(env, notice));
    BoundedQuiet(env, s, Chat(env, notice), FromProxy);
    BoundedSwitch(env, Send(env, s, Chat(env, notice)), env.defaultServer, connect);
  }

  lemma BoundedAfterCommand(env: Env, s: State, p: RawPacket, script: CommandResult, suggestions: Option<Bytes>, connect: Connect)
    requires Bounded(env, s)
    ensures Bounded(env, AfterCommand(env, s, p, script, suggestions, connect).0)
  {
    hide Switch, SendClient, SendBackend, Intercepted, DecodesAsTabRequest;
    BoundedSwitch(env, s, script.reroute, connect);
    if suggestions.Some? {
      BoundedQuiet(env, s, RawPacket(TabResponseId(env.version), suggestions.value), FromProxy);
    }
    BoundedSendBackend(env, s, p);
  }

  lemma BoundedHandleClient(env: Env, s: State, p: RawPacket, script: CommandResult, suggestions: Option<Bytes>, connect: Connect)
    requires Bounded(env, s)
    ensures Bounded(env, HandleClient(env, s, p, script, suggestions, connect).0)
  {
    hide AfterCommand, SendClient, Intercepted, IsProtected, Chat;
    var s1 := if IsServerboundClose(p.id, env.version) then s.(openContainer := None) else s;
    var chat := Chat(env, ScriptMessage(script.message));
    BoundedQuiet(env, s1, chat, FromProxy);
    BoundedAfterCommand(env, s1, p, script, suggestions, connect);
    BoundedAfterCommand(env, SendClient(env, s1, chat, FromProxy).0, p, script, suggestions, connect);
  }

  lemma BoundedHandleBackend(env: Env, s: State, p: RawPacket, connect: Connect)
    requires Bounded(env, s)
    ensures Bounded(env, HandleBackend(env, s, p, connect).0)
  {
    hide SendClient, IsProtected, FailOver, Forwarded, Track, TrackContainer, Switch, IsLoginPlay;
    if !IsProtected(p) {
      var conn := if s.backend.Some? then s.backend.value else 0;
      var s1 := s.(openContainer := TrackContainer(s.openContainer, p, env.version), shadow := Track(s.shadow, p, env.version),
                   world := s.world.(inbox := s.world.inbox + [Inbound(conn, p)]));
      if IsPlayDisconnect(p.id) {
        if s.currentServer != env.defaultServer {
          BoundedFailOver(env, s1, BackendDisconnected(s.currentServer), connect);
        }
      } else {
        var out := Forwarded(env, s.transferPending, p, conn);
        BoundedQuiet(env, s1, out.packet, out.origin);
        BoundedQuiet(env, s1.(transferPending := false), out.packet, out.origin);
      }
    }
  }

  lemma BoundedStep(env: Env, s: State, e: Event)
    requires Bounded(env, s)
    ensures Bounded(env, Step(env, s, e))
  {
    hide HandleClient, HandleBackend, FailOver, SendClient;
    if s.running && s.backend.Some? {
      match e {
        case ClientPacket(p, script, suggestions, connect) => BoundedHandleClient(env, s, p, script, suggestions, connect);
        case ClientGone =>
        case BackendPacket(p, connect) => BoundedHandleBackend(env, s, p, connect);
        case BackendGone(connect) =>
          if s.currentServer != env.defaultServer {
            BoundedFailOver(env, s, ConnectionLost(s.currentServer), connect);
          }
        case ShutdownSignal => BoundedQuiet(env, s, RawPacket(ShutdownId(env.version), env.shutdownPayload), FromProxy);
      }
    }
  }

  /**
   * For every protocol version and every run: successful failovers number at most one plus the
   * successful client-requested switches, a backend is present whenever the loop goes on, and the
   * current server stays a configured one.
   */
  lemma {:induction false} FailoverIsBounded(env: Env, server: Bytes, client: Option<nat>, backend: Option<nat>, cache: Registry.Cache, events: seq<Event>)
    requires server in env.servers
    ensures var s := Run(env, Start(server, client, backend, cache), events);
            && s.world.fallbacks <= 1 + s.world.requested
            && (s.running ==> s.backend.Some?)
            && s.currentServer in env.servers
            && Bounded(env, s)
    decreases |events|
  {
    hide Step;
    if events != [] {
      FailoverIsBounded(env, server, client, backend, cache, events[..|events| - 1]);
      BoundedStep(env, Run(env, Start(server, client, backend, cache), events[..|events| - 1]), events[|events| - 1]);
    }
  }
}
