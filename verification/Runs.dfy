/** Every step of a session keeps the invariants, hence so does every run. */
module Runs {
  import opened Wire
  import opened Codec
  import opened Display
  import opened PluginChannel
  import opened Routing
  import opened Transfers
  import opened Sessions
  import Registry
  import Respawn
  import CommandInjection

  ghost predicate Inv(env: Env, threshold: Option<nat>, s: State)
  {
    Mirrors(env, s) && Wires(env, threshold, s) && Placed(env, s) && LoginsKept(env, s)
  }

  // ----- Messages of the proxy -----

  lemma KeepQuiet(env: Env, threshold: Option<nat>, s: State, p: RawPacket)
    requires Inv(env, threshold, s) && QuietId(p.id, env.version)
    ensures Inv(env, threshold, SendClient(env, s, p, FromProxy).0)
    ensures OnlyClientSide(s, SendClient(env, s, p, FromProxy).0)
  {
    hide Mirrors, Wires, LoginsKept, ClientGets, Plain, QuietId, ProxyId, Track, TrackAll;
    var s' := SendClient(env, s, p, FromProxy).0;
    SendUnfolds(env, s, p);
    SendOne(env, s, p);
    SendsGives(env, s, s', [p]);
    QuietTracksNothing(s.shadow, p, env.version);
    QuietEntry(env, s, s', p);
    assert forall q :: q in [p] ==> q == p;
    ProxyIsPlain([p], env.version);
    LoginsAfterPlain(env, s, s', AsProxy([p]));
  }

  lemma QuietEntry(env: Env, s: State, s': State, p: RawPacket)
    requires ClientGets(env, s, s', AsProxy([p])) && OnlyClientSide(s, s') && Mirrored(s.shadow, Track(s.shadow, p, env.version), env.version)
    ensures Mirrors(env, s) ==> Mirrors(env, s')
    ensures forall t :: Wires(env, t, s) ==> Wires(env, t, s')
  {
    hide Track, ClientGets, FrameAll, Replay, Whole, Packets;
    assert AsProxy([p]) == [Sent(p, FromProxy)];
    TrackOne(s.shadow, Sent(p, FromProxy), env.version);
    if Mirrors(env, s) {
      MirrorsAfter(env, s, s', AsProxy([p]));
    }
    forall t | Wires(env, t, s) ensures Wires(env, t, s') {
      WiresAfter(env, t, s, s', AsProxy([p]));
    }
  }

  // ----- Packets forwarded to the backend -----

  lemma KeepSendBackend(env: Env, threshold: Option<nat>, s: State, p: RawPacket)
    requires Inv(env, threshold, s)
    ensures Inv(env, threshold, SendBackend(env, s, p).0)
  {
    hide Mirrors, Whole, FrameAll, Packets, LoginsKept, Append;
    var s' := SendBackend(env, s, p).0;
    if s.backend.Some? {
      var c := s.world.conns[s.backend.value];
      AppendWhole(env, c, p);
      BrokenIsWhole(env, c);
      AppendKeepsThreshold(env, c, p);
    }
    SameClientSide(env, s, s');
  }

  lemma BrokenIsWhole(env: Env, c: Conn)
    ensures Whole(env, c.(intact := false))
  {}

  lemma AppendKeepsThreshold(env: Env, c: Conn, p: RawPacket)
    ensures Append(env, c, p, c.threshold).threshold == c.threshold
  {}

  /** Mirroring and login bookkeeping do not look at what backends were sent. */
  lemma SameClientSide(env: Env, s: State, s': State)
    requires s'.shadow == s.shadow && s'.transferPending == s.transferPending
    requires |s'.world.conns| == |s.world.conns|
    requires s'.world.clientLog == s.world.clientLog && s'.world.clientIntact == s.world.clientIntact && s'.world.inbox == s.world.inbox
    ensures Mirrors(env, s) ==> Mirrors(env, s')
    ensures LoginsKept(env, s) ==> LoginsKept(env, s')
  {
    hide IsGenuine, Accounted, Packets, Replay, WellFormedShadow;
  }

  // ----- Switching -----

  lemma SwitchWhole(env: Env, s: State, target: Bytes, connect: Connect)
    requires forall i :: 0 <= i < |s.world.conns| ==> Whole(env, s.world.conns[i])
    requires forall i :: 0 <= i < |s.world.aborted| ==> Whole(env, s.world.aborted[i])
    ensures var s' := Switch(env, s, target, connect).0;
            && (forall i :: 0 <= i < |s'.world.conns| ==> Whole(env, s'.world.conns[i]))
            && (forall i :: 0 <= i < |s'.world.aborted| ==> Whole(env, s'.world.aborted[i]))
  {
    hide Whole, Frame, Prepare, TeardownPackets, SendAll;
    if target in env.servers && connect.Connected? {
      HandshakeWhole(env, s, target, connect);
      var h := HandshakeWith(env, s, target, connect);
      TeardownSends(env, s.(cache := h.cache, backend := None));
    }
  }

  lemma SwitchPacketIds(env: Env, s: State, target: Bytes, connect: Connect)
    ensures forall p :: p in SwitchPackets(env, s, target, connect) ==> ProxyId(p.id, env.version)
  {
    hide Succeeds, TeardownPackets;
    forall p | p in SwitchPackets(env, s, target, connect) ensures ProxyId(p.id, env.version) {
      if p in TeardownPackets(env, s) {
        TeardownIds(env, s, p);
      }
    }
  }

  lemma SwitchTracks(env: Env, s: State, target: Bytes, connect: Connect)
    requires env.Lawful() && WellFormedShadow(s.shadow)
    ensures Mirrored(Switch(env, s, target, connect).0.shadow,
                     TrackAll(s.shadow, SwitchPackets(env, s, target, connect), env.version), env.version)
  {
    hide TeardownPackets, TrackAll, Succeeds, Switch, Track;
    SwitchIsAllOrNothing(env, s, target, connect);
    if Succeeds(env, s, target, connect) {
      SucceedsNeeds(env, s, target, connect);
      TeardownLeavesNothing(env, s);
    } else {
      var p := SwitchPackets(env, s, target, connect)[0];
      QuietTracksNothing(s.shadow, p, env.version);
      TrackSingle(s.shadow, p, env.version);
      assert SwitchPackets(env, s, target, connect) == [p];
    }
  }

  lemma SucceedsNeeds(env: Env, s: State, target: Bytes, connect: Connect)
    requires Succeeds(env, s, target, connect)
    ensures target in env.servers && connect.Connected?
  {}

  lemma TrackSingle(s: Shadow, p: RawPacket, version: int)
    ensures TrackAll(s, [p], version) == Track(s, p, version)
  {
    assert [p][1..] == [];
  }

  lemma SwitchKeepsWellFormed(env: Env, s: State, target: Bytes, connect: Connect)
    requires WellFormedShadow(s.shadow)
    ensures WellFormedShadow(Switch(env, s, target, connect).0.shadow)
  {
    hide Switch, Succeeds;
    SwitchIsAllOrNothing(env, s, target, connect);
  }

  lemma KeepSwitch(env: Env, threshold: Option<nat>, s: State, target: Bytes, connect: Connect)
    requires env.Lawful() && Inv(env, threshold, s)
    ensures Inv(env, threshold, Switch(env, s, target, connect).0)
  {
    hide Mirrors, Wires, LoginsKept, ClientGets, Plain, ProxyId, Switch, Succeeds, SwitchPackets, TrackAll;
    var s' := Switch(env, s, target, connect).0;
    var ps := SwitchPackets(env, s, target, connect);
    SwitchIsAllOrNothing(env, s, target, connect);
    if Succeeds(env, s, target, connect) {
      SucceedsNeeds(env, s, target, connect);
    }
    SwitchGives(env, s, target, connect);
    assert Mirrors(env, s') by {
      assert WellFormedShadow(s.shadow) by { MirrorsUnfolds(env, s); }
      SwitchTracks(env, s, target, connect);
      SwitchKeepsWellFormed(env, s, target, connect);
      PacketsOfProxy(ps);
      MirrorsAfter(env, s, s', AsProxy(ps));
    }
    assert Wires(env, threshold, s') by {
      WiresUnfolds(env, threshold, s);
      SwitchWhole(env, s, target, connect);
      WiresAfter(env, threshold, s, s', AsProxy(ps));
    }
    SwitchPacketIds(env, s, target, connect);
    ProxyIsPlain(ps, env.version);
    LoginsAfterPlain(env, s, s', AsProxy(ps));
  }

  lemma MirrorsUnfolds(env: Env, s: State)
    requires Mirrors(env, s)
    ensures WellFormedShadow(s.shadow)
  {}

  lemma WiresUnfolds(env: Env, threshold: Option<nat>, s: State)
    requires Wires(env, threshold, s)
    ensures forall i :: 0 <= i < |s.world.conns| ==> Whole(env, s.world.conns[i])
    ensures forall i :: 0 <= i < |s.world.aborted| ==> Whole(env, s.world.aborted[i])
  {}

  // ----- Changes no invariant looks at -----

  lemma KeepBookkeeping(env: Env, threshold: Option<nat>, s: State, s': State)
    requires Inv(env, threshold, s)
    requires s' == s.(openContainer := s'.openContainer, running := s'.running, backend := s'.backend,
                      world := s.world.(fallbacks := s'.world.fallbacks, requested := s'.world.requested))
    requires (s'.running == s.running && s'.backend == s.backend) || (!s'.running && s'.backend.None?) || (!s'.running && s'.backend == s.backend)
    ensures Inv(env, threshold, s')
  {
    hide Whole, FrameAll, Packets, Mirrors, LoginsKept;
    SameClientSide(env, s, s');
  }

  // ----- Packets relayed from the backend -----

  lemma RespawnForId(login: RawPacket, version: int)
    ensures RespawnFor(login, version).id == Respawn.RespawnId(version)
  {
    hide Respawn.SkipLoginHead, Respawn.ReadSpawnInfo, Respawn.ReadLegacySpawnInfo, Respawn.ModernPayload, Respawn.LegacyPayload;
  }

  /** What is sent for a backend packet, case by case. */
  lemma ForwardedCases(env: Env, pending: bool, p: RawPacket, conn: nat)
    ensures var out := Forwarded(env, pending, p, conn); var v := env.version;
            && (IsLoginPlay(p.id, v) && pending ==>
                  out == Sent(RespawnFor(p, v), Translated(conn)) && out.packet.id == Respawn.RespawnId(v) && !IsLoginPlay(out.packet.id, v))
            && (IsLoginPlay(p.id, v) && !pending ==> out == Sent(p, Relayed(conn)))
            && (!IsLoginPlay(p.id, v) ==> out.origin == Relayed(conn) && out.packet.id == p.id)
            && (!IsLoginPlay(p.id, v) && !CommandInjection.IsDeclareCommands(p.id, v) ==> out.packet == p)
  {
    hide RespawnFor, CommandInjection.Inject;
    RespawnForId(p, env.version);
    if IsLoginPlay(Respawn.RespawnId(env.version), env.version) {
      CollisionHasCause(LoginPlay, RespawnClass, Respawn.RespawnId(env.version), env.version);
    }
  }

  /** Whether the packet itself or its replacement is tracked makes no difference. */
  lemma ForwardedTracksSame(env: Env, s: State, p: RawPacket, conn: nat)
    ensures Track(s.shadow, Forwarded(env, s.transferPending, p, conn).packet, env.version) == Track(s.shadow, p, env.version)
  {
    hide Track, Forwarded, IsLoginPlay, CommandInjection.IsDeclareCommands, RespawnFor, Respawn.RespawnId,
         BossBarId, ObjectiveId, DisplaySlotId, StopSoundId, IsSound;
    var v, out := env.version, Forwarded(env, s.transferPending, p, conn).packet;
    ForwardedCases(env, s.transferPending, p, conn);
    if IsLoginPlay(p.id, v) {
      WatchedIsNoOther(LoginPlay, p.id, v);
      UntrackedChangesNothing(s.shadow, p, v);
      if s.transferPending {
        WatchedIsNoOther(RespawnClass, out.id, v);
        UntrackedChangesNothing(s.shadow, out, v);
      }
    } else if CommandInjection.IsDeclareCommands(p.id, v) {
      WatchedIsNoOther(DeclareCommands, p.id, v);
      UntrackedChangesNothing(s.shadow, p, v);
      UntrackedChangesNothing(s.shadow, out, v);
    }
  }

  lemma SendGives(env: Env, s: State, p: RawPacket, origin: Origin)
    ensures var s' := SendClient(env, s, p, origin).0;
            && OnlyClientSide(s, s') && ClientGets(env, s, s', [Sent(p, origin)])
            && (s'.world.clientLog == s.world.clientLog || s'.world.clientLog == s.world.clientLog + [Sent(p, origin)])
  {
    hide Frame;
    var e := [Sent(p, origin)];
    assert Packets(e) == [p];
    assert FrameAll(env.zlib, [p], s.clientThreshold) == Frame(env.zlib, p, s.clientThreshold) by {
      assert FrameAll(env.zlib, [p][..0], s.clientThreshold) == [];
    }
  }

  lemma GenuineGrows(e: Sent, inbox: seq<Inbound>, x: Inbound, version: int)
    requires IsGenuine(e, inbox, version)
    ensures IsGenuine(e, inbox + [x], version)
  {
    hide RespawnFor, IsLoginPlay, CountLogins;
    if e.origin.Translated? {
      var j: nat :| IsFirstLogin(inbox, j, version) && inbox[j].conn == e.origin.conn
                    && e.packet == RespawnFor(inbox[j].packet, version);
      assert (inbox + [x])[..j] == inbox[..j];
      assert IsFirstLogin(inbox + [x], j, version);
    }
  }

  lemma CountsAppend(log: seq<Sent>, e: Sent, k: nat, version: int)
    ensures CountTranslated(log + [e], k) == CountTranslated(log, k) + if e.origin == Translated(k) then 1 else 0
    ensures CountRelayed(log + [e], k, version) == CountRelayed(log, k, version) + if IsRelayedLogin(e, k, version) then 1 else 0
  {
    assert (log + [e])[..|log|] == log;
  }

  /** One backend packet was handled and `out` sent for it. */
  ghost predicate Relays(env: Env, s: State, s': State, p: RawPacket, conn: nat)
  {
    && conn == |s.world.conns| - 1 && |s'.world.conns| == |s.world.conns|
    && s'.world.inbox == s.world.inbox + [Inbound(conn, p)]
    && s'.transferPending == (s.transferPending && !IsLoginPlay(p.id, env.version))
    && ClientGets(env, s, s', [Forwarded(env, s.transferPending, p, conn)])
    && (s'.world.clientLog == s.world.clientLog
        || s'.world.clientLog == s.world.clientLog + [Forwarded(env, s.transferPending, p, conn)])
  }

  /** The new entry, if it was written, is what it should be. */
  lemma RelayedEntries(env: Env, s: State, s': State, p: RawPacket, conn: nat, i: nat)
    requires LoginsKept(env, s) && Relays(env, s, s', p, conn) && i < |s'.world.clientLog|
    ensures IsGenuine(s'.world.clientLog[i], s'.world.inbox, env.version)
    ensures i < |s.world.clientLog| ==> s'.world.clientLog[i] == s.world.clientLog[i]
    ensures i >= |s.world.clientLog| ==> s'.world.clientLog[i] == Forwarded(env, s.transferPending, p, conn)
  {
    hide FrameAll, Packets, IsLoginPlay, CountLogins, Accounted, RespawnFor, Forwarded;
    var v := env.version;
    if i < |s.world.clientLog| {
      GenuineGrows(s.world.clientLog[i], s.world.inbox, Inbound(conn, p), v);
    } else {
      ForwardedCases(env, s.transferPending, p, conn);
      assert s'.world.inbox[|s.world.inbox|] == Inbound(conn, p);
      assert s'.world.inbox[..|s.world.inbox|] == s.world.inbox;
      assert IsLoginPlay(p.id, v) && s.transferPending ==> IsFirstLogin(s'.world.inbox, |s.world.inbox|, v);
    }
  }

  lemma LoginsAfterRelay(env: Env, s: State, s': State, p: RawPacket, conn: nat)
    requires LoginsKept(env, s) && Relays(env, s, s', p, conn)
    ensures LoginsKept(env, s')
  {
    hide FrameAll, Packets, IsLoginPlay, CountLogins, Accounted, IsGenuine, Forwarded;
    var w, w', v, out := s.world, s'.world, env.version, Forwarded(env, s.transferPending, p, conn);
    ForwardedCases(env, s.transferPending, p, conn);
    forall i | 0 <= i < |w'.clientLog|
      ensures IsGenuine(w'.clientLog[i], w'.inbox, v)
      ensures if i < |w.clientLog| then w'.clientLog[i] == w.clientLog[i] else w'.clientLog[i] == out
    {
      RelayedEntries(env, s, s', p, conn, i);
    }
    CountLoginsAppend(w.inbox, Inbound(conn, p), conn, v);
    forall k: nat ensures Accounted(w'.clientLog, w'.inbox, w'.clientIntact, k, v) {
      AccountedAfterRelay(env, s, s', p, conn, k);
    }
  }

  /** One more packet handled and at most its replacement sent: the account of every connection still balances. */
  lemma AccountedAfterRelay(env: Env, s: State, s': State, p: RawPacket, conn: nat, k: nat)
    requires LoginsKept(env, s) && Relays(env, s, s', p, conn)
    ensures Accounted(s'.world.clientLog, s'.world.inbox, s'.world.clientIntact, k, env.version)
  {
    hide FrameAll, Packets, IsLoginPlay, CountLogins, CountTranslated, CountRelayed, IsGenuine, Forwarded;
    var w, v, out := s.world, env.version, Forwarded(env, s.transferPending, p, conn);
    assert Accounted(w.clientLog, w.inbox, w.clientIntact, k, v);
    ForwardedCases(env, s.transferPending, p, conn);
    CountLoginsAppend(w.inbox, Inbound(conn, p), k, v);
    CountsAppend(w.clientLog, out, k, v);
  }

  /** The state a backend packet that is neither dropped nor a disconnect leads to. */
  lemma KeepRelay(env: Env, threshold: Option<nat>, s: State, p: RawPacket, connect: Connect)
    requires Inv(env, threshold, s) && s.backend.Some?
    requires !IsProtected(p) && !IsPlayDisconnect(p.id)
    ensures Inv(env, threshold, HandleBackend(env, s, p, connect).0)
  {
    hide Mirrors, Wires, LoginsKept, ClientGets, Forwarded, Track, TrackContainer, Switch, IsProtected, IsLoginPlay, SendClient;
    var conn, v := s.backend.value, env.version;
    var out := Forwarded(env, s.transferPending, p, conn);
    var s2 := s.(openContainer := TrackContainer(s.openContainer, p, v), shadow := Track(s.shadow, p, v),
                 transferPending := s.transferPending && !IsLoginPlay(p.id, v),
                 world := s.world.(inbox := s.world.inbox + [Inbound(conn, p)]));
    var s' := HandleBackend(env, s, p, connect).0;
    assert s' == SendClient(env, s2, out.packet, out.origin).0;
    SendGives(env, s2, out.packet, out.origin);
    ClientGetsSame(env, s, s2, s', [out]);
    assert Mirrors(env, s') by {
      MirrorsUnfolds(env, s);
      ForwardedTracksSame(env, s, p, conn);
      TrackOne(s.shadow, out, v);
      TrackKeepsWellFormed(s.shadow, p, v);
      MirrorsAfter(env, s, s', [out]);
    }
    assert Wires(env, threshold, s') by {
      WiresUnfolds(env, threshold, s);
      WiresAfter(env, threshold, s, s', [out]);
    }
    LoginsAfterRelay(env, s, s', p, conn);
  }

  lemma ClientGetsSame(env: Env, s: State, s2: State, s': State, entries: seq<Sent>)
    requires ClientGets(env, s2, s', entries) && s2.clientThreshold == s.clientThreshold
    requires s2.world.clientLog == s.world.clientLog && s2.world.clientWire == s.world.clientWire && s2.world.clientIntact == s.world.clientIntact
    ensures ClientGets(env, s, s', entries)
  {
    hide FrameAll, Packets;
  }

  /** Recording a disconnect of the backend: nothing tracked, no Login. */
  lemma KeepDisconnect(env: Env, threshold: Option<nat>, s: State, p: RawPacket, s1: State)
    requires Inv(env, threshold, s) && s.backend.Some? && IsPlayDisconnect(p.id)
    requires s1 == s.(openContainer := s1.openContainer, shadow := Track(s.shadow, p, env.version),
                      world := s.world.(inbox := s.world.inbox + [Inbound(s.backend.value, p)]))
    ensures Inv(env, threshold, s1)
  {
    hide Track, IsGenuine, CountLogins, CountTranslated, CountRelayed, Whole, FrameAll, Packets, Replay, IsLoginPlay, WellFormedShadow,
         BossBarId, ObjectiveId, DisplaySlotId, StopSoundId, IsSound;
    var v, x := env.version, Inbound(s.backend.value, p);
    WatchedIsNoOther(PlayDisconnect, p.id, v);
    UntrackedChangesNothing(s.shadow, p, v);
    forall i | 0 <= i < |s1.world.clientLog| ensures IsGenuine(s1.world.clientLog[i], s1.world.inbox, v) {
      GenuineGrows(s.world.clientLog[i], s.world.inbox, x, v);
    }
    assert !IsLoginPlay(p.id, v) by { assert !Has(LoginPlay, p.id, v); }
    forall k: nat ensures CountLogins(s1.world.inbox, k, v) == CountLogins(s.world.inbox, k, v) {
      CountLoginsAppend(s.world.inbox, x, k, v);
    }
    forall k: nat ensures Accounted(s1.world.clientLog, s1.world.inbox, s1.world.clientIntact, k, v) {
      assert Accounted(s.world.clientLog, s.world.inbox, s.world.clientIntact, k, v);
    }
  }

  // ----- Handlers -----

  lemma ChatIsQuiet(env: Env, n: Notice)
    ensures QuietId(Chat(env, n).id, env.version)
  {}

  lemma KeepFailOver(env: Env, threshold: Option<nat>, s: State, notice: Notice, connect: Connect)
    requires env.Lawful() && Inv(env, threshold, s)
    ensures Inv(env, threshold, FailOver(env, s, notice, connect).0)
  {
    hide Inv, Switch, SendClient, Chat, QuietId;
    ChatIsQuiet(env, notice);
    SendUnfolds(env, s, Chat(env, notice));
    KeepQuiet(env, threshold, s, Chat(env, notice));
    var s1 := Send(env, s, Chat(env, notice));
    KeepSwitch(env, threshold, s1, env.defaultServer, connect);
    var s2 := Switch(env, s1, env.defaultServer, connect).0;
    KeepBookkeeping(env, threshold, s2, s2.(world := s2.world.(fallbacks := s2.world.fallbacks + 1)));
  }

  lemma KeepHandleBackend(env: Env, threshold: Option<nat>, s: State, p: RawPacket, connect: Connect)
    requires env.Lawful() && Inv(env, threshold, s) && s.backend.Some?
    ensures Inv(env, threshold, HandleBackend(env, s, p, connect).0)
  {
    hide Inv, IsProtected, FailOver, Forwarded, Track, TrackContainer;
    if !IsProtected(p) {
      if IsPlayDisconnect(p.id) {
        var s1 := s.(openContainer := TrackContainer(s.openContainer, p, env.version), shadow := Track(s.shadow, p, env.version),
                     world := s.world.(inbox := s.world.inbox + [Inbound(s.backend.value, p)]));
        KeepDisconnect(env, threshold, s, p, s1);
        KeepFailOver(env, threshold, s1, BackendDisconnected(s.currentServer), connect);
      } else {
        KeepRelay(env, threshold, s, p, connect);
      }
    }
  }

  lemma KeepAfterCommand(env: Env, threshold: Option<nat>, s: State, p: RawPacket, script: CommandResult, suggestions: Option<Bytes>, connect: Connect)
    requires env.Lawful() && Inv(env, threshold, s)
    ensures Inv(env, threshold, AfterCommand(env, s, p, script, suggestions, connect).0)
  {
    hide Inv, Switch, SendClient, SendBackend, Intercepted, DecodesAsTabRequest;
    KeepSwitch(env, threshold, s, script.reroute, connect);
    var s1 := Switch(env, s, script.reroute, connect).0;
    KeepBookkeeping(env, threshold, s1, s1.(world := s1.world.(requested := s1.world.requested + 1)));
    if suggestions.Some? {
      KeepQuiet(env, threshold, s, RawPacket(TabResponseId(env.version), suggestions.value));
    }
    KeepSendBackend(env, threshold, s, p);
  }

  lemma KeepHandleClient(env: Env, threshold: Option<nat>, s: State, p: RawPacket, script: CommandResult, suggestions: Option<Bytes>, connect: Connect)
    requires env.Lawful() && Inv(env, threshold, s)
    ensures Inv(env, threshold, HandleClient(env, s, p, script, suggestions, connect).0)
  {
    hide Inv, AfterCommand, SendClient, Intercepted, IsProtected, Chat, QuietId;
    KeepBookkeeping(env, threshold, s, s.(openContainer := None));
    var s1 := if IsServerboundClose(p.id, env.version) then s.(openContainer := None) else s;
    var chat := Chat(env, ScriptMessage(script.message));
    ChatIsQuiet(env, ScriptMessage(script.message));
    KeepQuiet(env, threshold, s1, chat);
    KeepAfterCommand(env, threshold, s1, p, script, suggestions, connect);
    KeepAfterCommand(env, threshold, SendClient(env, s1, chat, FromProxy).0, p, script, suggestions, connect);
  }
}
