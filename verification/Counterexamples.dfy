/** Runs on which a promise of the source fails, and the exact conditions they lead to. */
module Counterexamples {
  import opened Wire
  import opened VarInt
  import opened Codec
  import opened ConfigPhase
  import opened Display
  import opened PluginChannel
  import opened Routing
  import opened Transfers
  import opened Sessions
  import opened SessionTheorems
  import Registry

  /** A world in which every write to the client succeeds and the default server is another one. */
  ghost predicate Friendly(env: Env, server: Bytes)
  {
    && env.Lawful() && (forall n :: env.clientTakes(n))
    && server in env.servers && env.defaultServer in env.servers && server != env.defaultServer
  }

  lemma FriendlyWorldsExist(version: int) returns (env: Env, server: Bytes)
    ensures env.version == version && Friendly(env, server)
  {
    server := [1];
    env := SampleEnv(version, [[], [1]]);
  }

  // ----- Steps in a friendly world -----

  lemma {:induction false} SendAllIntact(env: Env, s: State, ps: seq<RawPacket>)
    requires forall n :: env.clientTakes(n)
    ensures SendAll(env, s, ps).world.clientIntact == s.world.clientIntact
    decreases |ps|
  {
    hide Frame;
    if ps != [] {
      SendAllIntact(env, Send(env, s, ps[0]), ps[1..]);
    }
  }

  /** A backend that accepts the connection and finishes its configuration at once. */
  function Welcoming(version: int): Connect { Connected(None, [Read(RawPacket(FinishId(version), []), true)]) }

  lemma WelcomeSucceeds(env: Env, s: State, target: Bytes)
    requires target in env.servers
    ensures Succeeds(env, s, target, Welcoming(env.version))
  {
    hide Frame;
    ConfigureFinishesIff(env, Conn(target, None, [], [], true), s.cache, Welcoming(env.version).incoming);
    assert FinishesAt(Welcoming(env.version).incoming, 0, env.version);
  }

  lemma SwitchIntact(env: Env, s: State, target: Bytes, connect: Connect)
    requires (forall n :: env.clientTakes(n)) && s.world.clientIntact && Succeeds(env, s, target, connect)
    ensures Switch(env, s, target, connect).0.world.clientIntact
  {
    hide SendAll, Prepare, TeardownPackets;
    var h := HandshakeWith(env, s, target, connect);
    var s0 := s.(cache := h.cache, backend := None);
    SendAllIntact(env, s0.(openContainer := None, shadow := NOTHING), TeardownPackets(env, s0));
  }

  /** The backend is lost and the player lands on the default server. */
  lemma LostBackend(env: Env, s: State)
    requires (forall n :: env.clientTakes(n)) && env.defaultServer in env.servers && s.currentServer != env.defaultServer
    requires s.running && s.backend.Some? && s.world.clientIntact
    ensures var s' := Step(env, s, BackendGone(Welcoming(env.version)));
            && s'.running && s'.backend == Some(|s.world.conns|) && s'.transferPending && s'.shadow == NOTHING
            && s'.world.clientIntact && s.world.clientLog <= s'.world.clientLog && s'.world.inbox == s.world.inbox
  {
    hide Switch, Succeeds, Welcoming, Frame, SwitchPackets, FrameAll, Packets, AsProxy;
    var connect, s1 := Welcoming(env.version), Send(env, s, Chat(env, ConnectionLost(s.currentServer)));
    WelcomeSucceeds(env, s1, env.defaultServer);
    SucceedsConnects(env, s1, env.defaultServer, connect);
    SwitchIsAllOrNothing(env, s1, env.defaultServer, connect);
    SwitchIntact(env, s1, env.defaultServer, connect);
    SwitchGives(env, s1, env.defaultServer, connect);
  }

  lemma SucceedsConnects(env: Env, s: State, target: Bytes, connect: Connect)
    requires Succeeds(env, s, target, connect)
    ensures connect.Connected?
  {}

  // ----- Sounds that are mistaken -----

  /** At 759 and 760 every stop-all is itself a sound, so nothing ever silences the client. */
  lemma {:induction false} SoundStays(log: seq<RawPacket>, n: nat, version: int)
    requires 759 <= version <= 760 && n <= |log| && Replay(log[..n], version).audio
    ensures Replay(log, version).audio
    decreases |log|
  {
    hide BarEffect, ObjectiveEffect, SlotEffect;
    if n == |log| {
      assert log[..n] == log;
    } else {
      assert log[..|log| - 1][..n] == log[..n];
      SoundStays(log[..|log| - 1], n, version);
    }
  }

  /** At 759 and 760: one sound, then a transfer. The client still plays it, the proxy no longer tracks it. */
  lemma SoundSurvivesTransfer(env: Env, server: Bytes, client: Option<nat>, backend: Option<nat>, cache: Registry.Cache)
    requires Friendly(env, server) && 759 <= env.version <= 760
    ensures var events := [BackendPacket(RawPacket(0x61, []), Refused), BackendGone(Welcoming(env.version))];
            !ExactMirror(env, Run(env, Start(server, client, backend, cache), events))
  {
    hide Frame, Step, Replay, Packets;
    var s0, p := Start(server, client, backend, cache), RawPacket(0x61, []);
    var e0, e1 := BackendPacket(p, Refused), BackendGone(Welcoming(env.version));
    var s1 := Step(env, s0, e0);
    SoundArrives(env, s0, p);
    LostBackend(env, s1);
    RunTwo(env, s0, e0, e1);
    var log := Run(env, s0, [e0, e1]).world.clientLog;
    assert Packets(log)[..1] == [p];
    assert Replay([p], env.version).audio by { ReplayOne(p, env.version); }
    SoundStays(Packets(log), 1, env.version);
  }

  lemma ReplayOne(p: RawPacket, version: int)
    ensures Replay([p], version) == Track(NOTHING, p, version)
  {
    assert [p][..0] == [];
  }

  lemma SoundArrives(env: Env, s: State, p: RawPacket)
    requires (forall n :: env.clientTakes(n)) && s.running && s.backend.Some? && 759 <= env.version <= 760 && p == RawPacket(0x61, [])
    ensures var s' := Step(env, s, BackendPacket(p, Refused));
            && s'.running && s'.backend == s.backend && s'.currentServer == s.currentServer
            && s'.world.clientIntact == s.world.clientIntact
            && s'.world.clientLog == s.world.clientLog + [Sent(p, Relayed(s.backend.value))]
  {
    hide Frame, BarEffect, ObjectiveEffect, SlotEffect, RespawnFor;
  }

  lemma RunOne(env: Env, s: State, e: Event)
    ensures Run(env, s, [e]) == Step(env, s, e)
  {
    hide Step;
    assert [e][..0] == [];
    assert Run(env, s, []) == s;
  }

  lemma RunTwo(env: Env, s: State, e: Event, f: Event)
    ensures Run(env, s, [e, f]) == Step(env, Step(env, s, e), f)
  {
    hide Step;
    assert [e, f][..1] == [e];
    RunOne(env, s, e);
  }

  lemma RunThree(env: Env, s: State, e: Event, f: Event, g: Event)
    ensures Run(env, s, [e, f, g]) == Step(env, Step(env, Step(env, s, e), f), g)
  {
    hide Step;
    assert [e, f, g][..2] == [e, f];
    RunTwo(env, s, e, f);
  }

  /** At 761: the notice that the backend was lost has the id of a sound. */
  lemma NoticeMistakenForSound(env: Env, server: Bytes, client: Option<nat>, backend: Option<nat>, cache: Registry.Cache)
    requires Friendly(env, server) && env.version == 761
    ensures !ExactMirror(env, Run(env, Start(server, client, backend, cache), [BackendGone(Refused)]))
  {
    hide Frame, Replay, Packets, Run;
    var s0 := Start(server, client, backend, cache);
    RunOne(env, s0, BackendGone(Refused));
    var s1 := Step(env, s0, BackendGone(Refused));
    var a, b := Chat(env, ConnectionLost(server)), Chat(env, ConnectFailed(env.defaultServer));
    assert Packets(s1.world.clientLog) == [a, b];
    ReplayAppend([a], b, 761);
    assert [a, b] == [a] + [b];
    ChatIsHeard(Replay([a], 761), b);
  }

  /** In every run from every start, the shadow is exactly what the client displays. */
  ghost predicate MirrorsInEveryRun(version: int)
  {
    forall env: Env, server, client, backend, cache, events ::
      env.Lawful() && env.version == version && server in env.servers ==>
        ExactMirror(env, Run(env, Start(server, client, backend, cache), events))
  }

  /** The versions at which the shadow is exact in every run are those at which sounds are unmistakable. */
  lemma MirrorsInEveryRunIff(version: int)
    ensures MirrorsInEveryRun(version) <==> SoundsAreUnmistakable(version)
    ensures MirrorsInEveryRun(version) <==> version !in {759, 760, 761}
  {
    hide ExactMirror, Run, Start;
    if SoundsAreUnmistakable(version) {
      forall env: Env, server, client, backend, cache, events | env.Lawful() && env.version == version && server in env.servers
        ensures ExactMirror(env, Run(env, Start(server, client, backend, cache), events))
      {
        ShadowMirrorsClient(env, server, client, backend, cache, events);
      }
    } else {
      var env, server := FriendlyWorldsExist(version);
      if version == 761 {
        NoticeMistakenForSound(env, server, None, None, map[]);
      } else {
        SoundSurvivesTransfer(env, server, None, None, map[]);
      }
    }
  }

  // ----- A second Login -----

  /**
   * In every version: a transfer, then two Logins from the new backend. The second one is sent on to the
   * client, which is in the middle of a session.
   */
  lemma SecondLoginIsRelayed(env: Env, server: Bytes, client: Option<nat>, backend: Option<nat>, cache: Registry.Cache)
    requires Friendly(env, server)
    ensures var login := BackendPacket(RawPacket(LoginPlayId(env.version), []), Refused);
            var w := Run(env, Start(server, client, backend, cache), [BackendGone(Welcoming(env.version)), login, login]).world;
            && w.clientIntact && CountLogins(w.inbox, 1, env.version) == 2
            && exists i :: 0 <= i < |w.clientLog| && IsRelayedLogin(w.clientLog[i], 1, env.version)
  {
    hide Step, Run, CountLogins, LoginPlayId, Welcoming, IsRelayedLogin;
    var v, s0, p := env.version, Start(server, client, backend, cache), RawPacket(LoginPlayId(env.version), []);
    var gone, login := BackendGone(Welcoming(v)), BackendPacket(p, Refused);
    IdOfLogin(v);
    LostBackend(env, s0);
    var s1 := Step(env, s0, gone);
    LoginArrives(env, s1, p);
    var s2 := Step(env, s1, login);
    LoginArrives(env, s2, p);
    var s3 := Step(env, s2, login);
    RunThree(env, s0, gone, login, login);
    CountLoginsAppend([], Inbound(1, p), 1, v);
    CountLoginsAppend(s2.world.inbox, Inbound(1, p), 1, v);
    assert [] + [Inbound(1, p)] == s2.world.inbox && CountLogins([], 1, v) == 0 by { NoLoginsBeyond([], 1, v); }
    assert s3.world.clientLog[|s2.world.clientLog|] == Sent(p, Relayed(1));
    assert IsRelayedLogin(Sent(p, Relayed(1)), 1, v) by { RelayedLogin(p, 1, v); }
  }

  lemma IdOfLogin(version: int)
    ensures IsLoginPlay(LoginPlayId(version), version)
  {}

  lemma RelayedLogin(p: RawPacket, k: nat, version: int)
    requires IsLoginPlay(p.id, version)
    ensures IsRelayedLogin(Sent(p, Relayed(k)), k, version)
  {}

  lemma LoginArrives(env: Env, s: State, p: RawPacket)
    requires (forall n :: env.clientTakes(n)) && s.running && s.backend.Some?
    requires IsLoginPlay(p.id, env.version) && p.payload == []
    ensures var s' := Step(env, s, BackendPacket(p, Refused));
            && s'.running && s'.backend == s.backend && !s'.transferPending
            && s'.world.clientIntact == s.world.clientIntact
            && (!s.transferPending ==> s'.world.clientLog == s.world.clientLog + [Sent(p, Relayed(s.backend.value))])
            && s'.world.inbox == s.world.inbox + [Inbound(s.backend.value, p)]
  {
    hide Frame, Track, TrackContainer, RespawnFor;
  }
}
