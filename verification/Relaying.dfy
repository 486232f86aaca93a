/** What the Play phase lets through, in either direction: nothing is lost, added or reordered. */
module Relaying {
  import opened Wire
  import opened Codec
  import opened ConfigPhase
  import opened Display
  import opened PluginChannel
  import opened Routing
  import opened Transfers
  import opened Sessions
  import opened Runs
  import opened SessionTheorems
  import opened Translations
  import opened VarInt
  import Registry
  import CommandInjection

  // ----- What a step adds to the logs -----

  /** The client log gained only messages of the proxy; no backend packet was handled. */
  ghost predicate AddsOwn(s: State, s': State)
  {
    && s.world.clientLog <= s'.world.clientLog && s'.world.inbox == s.world.inbox
    && forall i :: |s.world.clientLog| <= i < |s'.world.clientLog| ==> s'.world.clientLog[i].origin == FromProxy
  }

  /** Connections only get appended. */
  ghost predicate KeepsConns(s: State, s': State)
  {
    s.world.conns <= s'.world.conns
  }

  /** A client write that failed is never forgotten. */
  ghost predicate KeepsFailure(s: State, s': State) { s'.world.clientIntact ==> s.world.clientIntact }

  ghost predicate OwnStep(s: State, s': State) { AddsOwn(s, s') && KeepsConns(s, s') && KeepsFailure(s, s') }

  lemma SwitchIsOwn(env: Env, s: State, target: Bytes, connect: Connect)
    ensures OwnStep(s, Switch(env, s, target, connect).0)
  {
    hide Switch, SwitchPackets, FrameAll, Packets, Succeeds;
    SwitchGives(env, s, target, connect);
    SwitchIsAllOrNothing(env, s, target, connect);
    if Succeeds(env, s, target, connect) {
      SucceedsNeeds(env, s, target, connect);
    }
  }

  lemma FailOverIsOwn(env: Env, s: State, notice: Notice, connect: Connect)
    ensures OwnStep(s, FailOver(env, s, notice, connect).0)
  {
    hide Switch, Frame, Chat;
    SwitchIsOwn(env, Send(env, s, Chat(env, notice)), env.defaultServer, connect);
  }

  // ----- Packets of the client -----

  /** The packet is meant for the backend: not protected, not a command the script took over, not answered here. */
  predicate Passes(p: RawPacket, script: CommandResult, suggestions: Option<Bytes>, version: int)
  {
    && !IsProtected(p)
    && !(Intercepted(p, version) && (script.reroute != [] || script.cancel))
    && !(DecodesAsTabRequest(p, version) && suggestions.Some?)
  }

  /** `p` was written to connection `k` and nothing else happened to the connections, or `k` is broken. */
  ghost predicate Delivered(s: State, s': State, p: RawPacket, k: nat)
  {
    && k < |s.world.conns| == |s'.world.conns|
    && (forall i :: 0 <= i < |s.world.conns| && i != k ==> s'.world.conns[i] == s.world.conns[i])
    && (s'.world.conns[k].intact ==> s.world.conns[k].intact && s'.world.conns[k].sent == s.world.conns[k].sent + [p])
  }

  lemma BackendWriteDelivers(env: Env, s: State, p: RawPacket)
    requires s.backend.Some? && s.backend.value < |s.world.conns|
    ensures var s' := SendBackend(env, s, p).0;
            AddsOwn(s, s') && KeepsFailure(s, s') && Delivered(s, s', p, s.backend.value) && |s'.world.conns| == |s.world.conns|
  {
    hide Frame;
  }

  lemma AfterCommandEffect(env: Env, s: State, p: RawPacket, script: CommandResult, suggestions: Option<Bytes>, connect: Connect)
    requires !IsProtected(p) && s.backend.Some? && s.backend.value < |s.world.conns|
    ensures var s' := AfterCommand(env, s, p, script, suggestions, connect).0;
            && AddsOwn(s, s') && KeepsFailure(s, s') && |s.world.conns| <= |s'.world.conns|
            && (if Passes(p, script, suggestions, env.version) then Delivered(s, s', p, s.backend.value) else KeepsConns(s, s'))
  {
    hide Switch, SendClient, SendBackend, Intercepted, DecodesAsTabRequest, IsProtected, Delivered;
    SwitchIsOwn(env, s, script.reroute, connect);
    if suggestions.Some? {
      SendAppends(env, s, RawPacket(TabResponseId(env.version), suggestions.value), FromProxy);
    }
    BackendWriteDelivers(env, s, p);
  }

  lemma HandleClientEffect(env: Env, s: State, p: RawPacket, script: CommandResult, suggestions: Option<Bytes>, connect: Connect)
    requires s.backend.Some? && s.backend.value < |s.world.conns|
    ensures var s' := HandleClient(env, s, p, script, suggestions, connect).0;
            && AddsOwn(s, s') && KeepsFailure(s, s')
            && (s'.world.clientIntact && Passes(p, script, suggestions, env.version) ==> Delivered(s, s', p, s.backend.value))
            && (!Passes(p, script, suggestions, env.version) ==> KeepsConns(s, s'))
            && |s.world.conns| <= |s'.world.conns|
  {
    hide AfterCommand, SendClient, Intercepted, IsProtected, IsServerboundClose, Chat, Passes, AddsOwn, Delivered;
    var s' := HandleClient(env, s, p, script, suggestions, connect).0;
    if IsProtected(p) {
      ProtectedIsDropped(p, script, suggestions, env.version);
      OwnChain(s, s, s);
    } else {
      var s1 := if IsServerboundClose(p.id, env.version) then s.(openContainer := None) else s;
      if Intercepted(p, env.version) && script.message != [] {
        var chat := Chat(env, ScriptMessage(script.message));
        var (s2, ok) := SendClient(env, s1, chat, FromProxy);
        SendAppends(env, s1, chat, FromProxy);
        OwnChain(s, s1, s2);
        if ok {
          AfterCommandEffect(env, s2, p, script, suggestions, connect);
          OwnChain(s, s2, s');
          SameConns(s, s2, s', p);
        }
      } else {
        AfterCommandEffect(env, s1, p, script, suggestions, connect);
        OwnChain(s, s1, s');
        SameConns(s, s1, s', p);
      }
    }
  }

  lemma OwnChain(s: State, s1: State, s2: State)
    requires s1.world == s.world || AddsOwn(s, s1)
    ensures s2.world == s1.world || AddsOwn(s1, s2) ==> AddsOwn(s, s2)
    ensures forall p :: OnlyClientSide(s1, s2) && s2.world.clientLog == s1.world.clientLog + [Sent(p, FromProxy)] ==> AddsOwn(s, s2)
    ensures OnlyClientSide(s1, s2) && s2.world.clientLog == s1.world.clientLog ==> AddsOwn(s, s2)
  {}

  lemma SameConns(s: State, s1: State, s2: State, p: RawPacket)
    requires s1.world.conns == s.world.conns
    ensures forall k: nat :: Delivered(s1, s2, p, k) <==> Delivered(s, s2, p, k)
  {}

  lemma ProtectedIsDropped(p: RawPacket, script: CommandResult, suggestions: Option<Bytes>, version: int)
    requires IsProtected(p)
    ensures !Passes(p, script, suggestions, version)
  {}

  // ----- Packets of the backend -----

  /** The packet a turn handles from the backend, if any. */
  function Arrival(s: State, e: Event): seq<Inbound>
  {
    if s.running && s.backend.Some? && e.BackendPacket? && !IsProtected(e.packet) then [Inbound(s.backend.value, e.packet)] else []
  }

  /** What the client log gains of the backend's packets in a turn, unless the write fails. */
  function Passing(env: Env, s: State, e: Event): seq<Sent>
  {
    if Arrival(s, e) != [] && !IsPlayDisconnect(e.packet.id) then [Forwarded(env, s.transferPending, e.packet, s.backend.value)] else []
  }

  /** The log gained `out` at its end and messages of the proxy before it. */
  ghost predicate Gains(log: seq<Sent>, log': seq<Sent>, out: seq<Sent>)
  {
    && |log| + |out| <= |log'| && log <= log' && log'[|log'| - |out|..] == out
    && forall i :: |log| <= i < |log'| - |out| ==> log'[i].origin == FromProxy
  }

  ghost predicate BackendEffect(env: Env, s: State, s': State, e: Event)
  {
    && s'.world.inbox == s.world.inbox + Arrival(s, e)
    && KeepsFailure(s, s') && s.world.clientLog <= s'.world.clientLog
    && (s'.world.clientIntact ==> Gains(s.world.clientLog, s'.world.clientLog, Passing(env, s, e)))
  }

  lemma OwnIsNoPassing(env: Env, s: State, s': State, e: Event)
    requires AddsOwn(s, s') && KeepsFailure(s, s') && Arrival(s, e) == []
    ensures BackendEffect(env, s, s', e)
  {
    assert s.world.inbox + [] == s.world.inbox;
    assert s'.world.clientLog[|s'.world.clientLog|..] == [];
  }

  lemma HandleBackendEffect(env: Env, s: State, p: RawPacket, connect: Connect)
    requires s.running && s.backend.Some?
    ensures var s' := HandleBackend(env, s, p, connect).0;
            BackendEffect(env, s, s', BackendPacket(p, connect)) && KeepsConns(s, s')
  {
    hide FailOver, Forwarded, Track, TrackContainer, IsProtected, SendClient;
    var s', conn := HandleBackend(env, s, p, connect).0, s.backend.value;
    if IsProtected(p) {
      OwnIsNoPassing(env, s, s', BackendPacket(p, connect));
    } else {
      var s1 := s.(openContainer := TrackContainer(s.openContainer, p, env.version), shadow := Track(s.shadow, p, env.version),
                   world := s.world.(inbox := s.world.inbox + [Inbound(conn, p)]));
      if IsPlayDisconnect(p.id) {
        FailOverIsOwn(env, s1, BackendDisconnected(s.currentServer), connect);
        assert s'.world.clientLog[|s'.world.clientLog|..] == [];
      } else {
        var out := Forwarded(env, s.transferPending, p, conn);
        var s2 := if IsLoginPlay(p.id, env.version) then s1.(transferPending := false) else s1;
        assert s' == SendClient(env, s2, out.packet, out.origin).0;
        SendAppends(env, s2, out.packet, out.origin);
      }
    }
  }

  lemma SendAppends(env: Env, s: State, p: RawPacket, origin: Origin)
    ensures var s' := SendClient(env, s, p, origin).0;
            && OnlyClientSide(s, s') && KeepsFailure(s, s') && s.world.clientLog <= s'.world.clientLog
            && (s'.world.clientLog == s.world.clientLog || s'.world.clientLog == s.world.clientLog + [Sent(p, origin)])
            && (s'.world.clientIntact ==> s'.world.clientLog == s.world.clientLog + [Sent(p, origin)])
            && (!SendClient(env, s, p, origin).1 ==> !s'.world.clientIntact)
  {
    hide Frame;
  }

  /** What a whole turn does to the logs. */
  lemma StepEffect(env: Env, s: State, e: Event)
    requires s.backend.Some? ==> s.backend.value < |s.world.conns|
    ensures var s' := Step(env, s, e); BackendEffect(env, s, s', e) && |s.world.conns| <= |s'.world.conns|
  {
    hide HandleClient, HandleBackend, FailOver, SendClient, BackendEffect, IsProtected, Passes, Delivered;
    var s' := Step(env, s, e);
    if s.running && s.backend.Some? && e.BackendPacket? {
      HandleBackendEffect(env, s, e.packet, e.connect);
      SameWorld(env, s, HandleBackend(env, s, e.packet, e.connect).0, s', e);
    } else {
      if s.running && s.backend.Some? {
        match e {
          case ClientPacket(p, script, suggestions, connect) => HandleClientEffect(env, s, p, script, suggestions, connect);
          case BackendGone(connect) => FailOverIsOwn(env, s, ConnectionLost(s.currentServer), connect);
          case ShutdownSignal => SendAppends(env, s, RawPacket(ShutdownId(env.version), env.shutdownPayload), FromProxy);
          case _ =>
        }
      }
      OwnIsNoPassing(env, s, s', e);
    }
  }

  lemma SameWorld(env: Env, s: State, s1: State, s2: State, e: Event)
    requires BackendEffect(env, s, s1, e) && s2.world == s1.world
    ensures BackendEffect(env, s, s2, e)
  {
    hide Arrival, Passing, Gains;
  }

  // ----- From the backends to the client -----

  /** The packets that came in on connection `k`, in order. */
  function PacketsFrom(inbox: seq<Inbound>, k: nat): seq<RawPacket>
  {
    if inbox == [] then []
    else
      var last := inbox[|inbox| - 1];
      PacketsFrom(inbox[..|inbox| - 1], k) + if last.conn == k then [last.packet] else []
  }

  /** The entry was made from a packet of connection `k`. */
  predicate StemsFrom(e: Sent, k: nat) { e.origin == Relayed(k) || e.origin == Translated(k) }

  /** The entries of the log that were made from packets of connection `k`, in order. */
  function EntriesFrom(log: seq<Sent>, k: nat): seq<Sent>
  {
    if log == [] then []
    else
      var last := log[|log| - 1];
      EntriesFrom(log[..|log| - 1], k) + if StemsFrom(last, k) then [last] else []
  }

  predicate HasLogin(ps: seq<RawPacket>, version: int) { exists i :: 0 <= i < |ps| && IsLoginPlay(ps[i].id, version) }

  /**
   * What the packets `ps` of connection `k` become: disconnects are swallowed, the first Login of a later
   * connection is translated, a command tree is rewritten, and everything else stays as it is.
   */
  function Images(env: Env, ps: seq<RawPacket>, k: nat): seq<Sent>
  {
    if ps == [] then []
    else
      var n := |ps| - 1;
      Images(env, ps[..n], k)
      + if IsPlayDisconnect(ps[n].id) then [] else [Forwarded(env, k >= 1 && !HasLogin(ps[..n], env.version), ps[n], k)]
  }

  /** For every connection, the client got exactly the images of what came in, in order. */
  ghost predicate InOrder(env: Env, s: State)
  {
    s.world.clientIntact ==> forall k: nat :: EntriesFrom(s.world.clientLog, k) == Images(env, PacketsFrom(s.world.inbox, k), k)
  }

  lemma {:induction false} OwnEntriesDoNotStem(log: seq<Sent>, own: seq<Sent>, k: nat)
    requires forall i :: 0 <= i < |own| ==> own[i].origin == FromProxy
    ensures EntriesFrom(log + own, k) == EntriesFrom(log, k)
    decreases |own|
  {
    if own == [] {
      assert log + own == log;
    } else {
      var n := |own| - 1;
      assert (log + own)[..|log| + n] == log + own[..n];
      OwnEntriesDoNotStem(log, own[..n], k);
    }
  }

  lemma EntriesAfter(log: seq<Sent>, log': seq<Sent>, out: seq<Sent>, k: nat)
    requires Gains(log, log', out) && |out| <= 1
    ensures EntriesFrom(log', k) == EntriesFrom(log, k) + if out != [] && StemsFrom(out[0], k) then out else []
  {
    var n := |log'| - |out|;
    var own := log'[|log|..n];
    assert log'[..n] == log + own && log' == log'[..n] + out;
    OwnEntriesDoNotStem(log, own, k);
    if out != [] {
      assert log'[..|log'| - 1] == log'[..n] && log'[n] == log'[n..][0];
    } else {
      assert log'[..n] == log';
    }
  }

  lemma {:induction false} LoginsCounted(inbox: seq<Inbound>, k: nat, version: int)
    ensures CountLogins(inbox, k, version) == 0 <==> !HasLogin(PacketsFrom(inbox, k), version)
  {
    hide IsLoginPlay;
    if inbox != [] {
      var n := |inbox| - 1;
      LoginsCounted(inbox[..n], k, version);
      assert PacketsFrom(inbox[..n], k) + [] == PacketsFrom(inbox[..n], k);
      if inbox[n].conn == k {
        HasLoginAppend(PacketsFrom(inbox[..n], k), inbox[n].packet, version);
      }
    }
  }

  lemma HasLoginAppend(ps: seq<RawPacket>, p: RawPacket, version: int)
    ensures HasLogin(ps + [p], version) <==> HasLogin(ps, version) || IsLoginPlay(p.id, version)
  {
    hide IsLoginPlay;
    var all := ps + [p];
    assert all[|ps|] == p;
    if HasLogin(ps, version) {
      var i :| 0 <= i < |ps| && IsLoginPlay(ps[i].id, version);
      assert all[i] == ps[i];
    }
    if HasLogin(all, version) {
      var i :| 0 <= i < |all| && IsLoginPlay(all[i].id, version);
      assert i < |ps| ==> ps[i] == all[i];
    }
  }

  lemma ForwardedStems(env: Env, pending: bool, p: RawPacket, conn: nat, k: nat)
    ensures StemsFrom(Forwarded(env, pending, p, conn), k) <==> conn == k
  {
    hide Forwarded, RespawnFor, IsLoginPlay, CommandInjection.IsDeclareCommands;
    ForwardedCases(env, pending, p, conn);
  }

  lemma StepKeepsOrder(env: Env, threshold: Option<nat>, s: State, e: Event)
    requires Inv(env, threshold, s) && InOrder(env, s)
    ensures InOrder(env, Step(env, s, e))
  {
    hide Step, Inv, Images, EntriesFrom, PacketsFrom, BackendEffect;
    var s' := Step(env, s, e);
    assert s.backend.Some? ==> s.backend.value < |s.world.conns| by { InvUnfolds(env, threshold, s); }
    StepEffect(env, s, e);
    if s'.world.clientIntact {
      forall k: nat ensures EntriesFrom(s'.world.clientLog, k) == Images(env, PacketsFrom(s'.world.inbox, k), k) {
        OrderAt(env, threshold, s, s', e, k);
      }
    }
  }

  lemma InvUnfolds(env: Env, threshold: Option<nat>, s: State)
    requires Inv(env, threshold, s)
    ensures s.backend.Some? ==>
              && s.backend.value < |s.world.conns|
              && (s.transferPending <==> s.backend.value >= 1 && CountLogins(s.world.inbox, s.backend.value, env.version) == 0)
  {
    hide Mirrors, Wires, Accounted, IsGenuine, CountLogins, IsLoginPlay;
  }

  lemma OrderAt(env: Env, threshold: Option<nat>, s: State, s': State, e: Event, k: nat)
    requires Inv(env, threshold, s) && InOrder(env, s) && BackendEffect(env, s, s', e) && s'.world.clientIntact
    ensures EntriesFrom(s'.world.clientLog, k) == Images(env, PacketsFrom(s'.world.inbox, k), k)
  {
    hide Inv, Forwarded, Images, EntriesFrom, PacketsFrom, IsProtected, CountLogins, Gains, HasLogin;
    var ps := PacketsFrom(s.world.inbox, k);
    assert EntriesFrom(s.world.clientLog, k) == Images(env, ps, k);
    EntriesAfter(s.world.clientLog, s'.world.clientLog, Passing(env, s, e), k);
    if Arrival(s, e) == [] {
      assert s.world.inbox + [] == s.world.inbox && Images(env, ps, k) + [] == Images(env, ps, k);
    } else {
      var conn, p := s.backend.value, e.packet;
      InvUnfolds(env, threshold, s);
      PacketsFromAppend(s.world.inbox, Inbound(conn, p), k);
      ForwardedStems(env, s.transferPending, p, conn, k);
      LoginsCounted(s.world.inbox, k, env.version);
      ImagesAppend(env, ps, p, k);
      assert ps + [] == ps && Images(env, ps, k) + [] == Images(env, ps, k);
    }
  }

  lemma PacketsFromAppend(inbox: seq<Inbound>, x: Inbound, k: nat)
    ensures PacketsFrom(inbox + [x], k) == PacketsFrom(inbox, k) + if x.conn == k then [x.packet] else []
  {
    assert (inbox + [x])[..|inbox|] == inbox;
  }

  lemma ImagesAppend(env: Env, ps: seq<RawPacket>, p: RawPacket, k: nat)
    ensures Images(env, ps + [p], k) == Images(env, ps, k)
         + if IsPlayDisconnect(p.id) then [] else [Forwarded(env, k >= 1 && !HasLogin(ps, env.version), p, k)]
  {
    hide Forwarded, HasLogin;
    assert (ps + [p])[..|ps|] == ps;
  }

  // ----- Whole runs, from the backends to the client -----

  /** The unprotected packets of connection `k` among the events of a run, in order. */
  function Arrivals(env: Env, s: State, events: seq<Event>, k: nat): seq<RawPacket>
  {
    if events == [] then []
    else
      var n := |events| - 1;
      Arrivals(env, s, events[..n], k) + PacketsFrom(Arrival(Run(env, s, events[..n]), events[n]), k)
  }

  lemma {:induction false} PacketsFromConcat(a: seq<Inbound>, b: seq<Inbound>, k: nat)
    ensures PacketsFrom(a + b, k) == PacketsFrom(a, k) + PacketsFrom(b, k)
    decreases |b|
  {
    if b == [] {
      assert a + b == a;
    } else {
      var n := |b| - 1;
      assert (a + b)[..|a| + n] == a + b[..n];
      PacketsFromConcat(a, b[..n], k);
    }
  }

  lemma {:induction false} RunKeepsOrder(env: Env, threshold: Option<nat>, s: State, events: seq<Event>, k: nat)
    requires env.Lawful() && Inv(env, threshold, s) && InOrder(env, s)
    ensures var s' := Run(env, s, events);
            && Inv(env, threshold, s') && InOrder(env, s')
            && PacketsFrom(s'.world.inbox, k) == PacketsFrom(s.world.inbox, k) + Arrivals(env, s, events, k)
    decreases |events|
  {
    hide Inv, InOrder, Step, Arrival, PacketsFrom;
    var from := PacketsFrom(s.world.inbox, k);
    if events == [] {
      assert from + [] == from;
    } else {
      var n := |events| - 1;
      RunKeepsOrder(env, threshold, s, events[..n], k);
      var s1 := Run(env, s, events[..n]);
      StepKeepsInv(env, threshold, s1, events[n]);
      StepKeepsOrder(env, threshold, s1, events[n]);
      InvUnfolds(env, threshold, s1);
      StepEffect(env, s1, events[n]);
      PacketsFromConcat(s1.world.inbox, Arrival(s1, events[n]), k);
      var x, y := Arrivals(env, s, events[..n], k), PacketsFrom(Arrival(s1, events[n]), k);
      assert (from + x) + y == from + (x + y);
    }
  }

  lemma StartInOrder(env: Env, server: Bytes, client: Option<nat>, backend: Option<nat>, cache: Registry.Cache)
    ensures InOrder(env, Start(server, client, backend, cache))
  {}

  /** All packets but the disconnects. */
  function Kept(ps: seq<RawPacket>): seq<RawPacket>
  {
    if ps == [] then [] else Kept(ps[..|ps| - 1]) + if IsPlayDisconnect(ps[|ps| - 1].id) then [] else [ps[|ps| - 1]]
  }

  lemma {:induction false} KeptLogins(ps: seq<RawPacket>, version: int)
    ensures HasLogin(Kept(ps), version) <==> HasLogin(ps, version)
  {
    hide IsLoginPlay;
    if ps != [] {
      var n := |ps| - 1;
      KeptLogins(ps[..n], version);
      HasLoginAppend(ps[..n], ps[n], version);
      HasLoginAppend(Kept(ps[..n]), ps[n], version);
      assert ps == ps[..n] + [ps[n]] && Kept(ps[..n]) + [] == Kept(ps[..n]);
      if IsPlayDisconnect(ps[n].id) && IsLoginPlay(ps[n].id, version) {
        CollisionHasCause(LoginPlay, PlayDisconnect, ps[n].id, version);
      }
    }
  }

  /** The `i`-th entry conveys the `i`-th packet of connection `k`. */
  ghost predicate ConveysAt(env: Env, ps: seq<RawPacket>, k: nat, entries: seq<Sent>, i: nat)
    requires i < |ps| && i < |entries|
  {
    Conveys(env, k >= 1 && !HasLogin(ps[..i], env.version), ps[i], k, entries[i])
  }

  lemma {:induction false} ImagesConvey(env: Env, ps: seq<RawPacket>, k: nat)
    ensures var kept, entries := Kept(ps), Images(env, ps, k);
            |kept| == |entries| && forall i :: 0 <= i < |kept| ==> ConveysAt(env, kept, k, entries, i)
  {
    hide Conveys, Forwarded, HasLogin;
    if ps != [] {
      var n := |ps| - 1;
      ImagesConvey(env, ps[..n], k);
      var front, before := Images(env, ps[..n], k), Kept(ps[..n]);
      var entries, kept := Images(env, ps, k), Kept(ps);
      if IsPlayDisconnect(ps[n].id) {
        assert front + [] == front && before + [] == before;
      } else {
        KeptLogins(ps[..n], env.version);
        ForwardedConveys(env, k >= 1 && !HasLogin(before, env.version), ps[n], k);
        forall i | 0 <= i < |kept| ensures ConveysAt(env, kept, k, entries, i) {
          if i < |before| {
            assert ConveysAt(env, before, k, front, i);
            assert kept[..i] == before[..i] && kept[i] == before[i] && entries[i] == front[i];
          } else {
            assert kept[..i] == before && kept[i] == ps[n];
          }
        }
      }
    }
  }

  /**
   * While client writes succeeded: for every connection, the entries of the client log made from its packets
   * correspond one to one and in order to its unprotected packets other than disconnects, and each entry
   * conveys its packet: the first Login of a later connection as a Respawn that stands for it, a command
   * tree as its graft, anything else unchanged.
   */
  lemma ClientReceivesInOrder(env: Env, server: Bytes, client: Option<nat>, backend: Option<nat>, cache: Registry.Cache,
                              events: seq<Event>, k: nat)
    requires env.Lawful() && server in env.servers
    ensures var s := Start(server, client, backend, cache); var w := Run(env, s, events).world;
            var kept, entries := Kept(Arrivals(env, s, events, k)), EntriesFrom(w.clientLog, k);
            w.clientIntact ==> |kept| == |entries| && forall i :: 0 <= i < |kept| ==> ConveysAt(env, kept, k, entries, i)
  {
    hide Run, Images, EntriesFrom, Arrivals, Kept, ConveysAt;
    ClientReceivesImages(env, server, client, backend, cache, events, k);
    ImagesConvey(env, Arrivals(env, Start(server, client, backend, cache), events, k), k);
  }

  lemma ClientReceivesImages(env: Env, server: Bytes, client: Option<nat>, backend: Option<nat>, cache: Registry.Cache,
                             events: seq<Event>, k: nat)
    requires env.Lawful() && server in env.servers
    ensures var s := Start(server, client, backend, cache); var w := Run(env, s, events).world;
            w.clientIntact ==> EntriesFrom(w.clientLog, k) == Images(env, Arrivals(env, s, events, k), k)
  {
    hide Run, Inv, Images, EntriesFrom, Arrivals;
    var s := Start(server, client, backend, cache);
    StartHolds(env, server, client, backend, cache);
    StartInOrder(env, server, client, backend, cache);
    RunKeepsOrder(env, client, s, events, k);
    assert [] + Arrivals(env, s, events, k) == Arrivals(env, s, events, k);
  }

  /** Neither a disconnect nor one of the two packets the proxy rewrites. */
  predicate IsOrdinary(p: RawPacket, version: int)
  {
    !IsPlayDisconnect(p.id) && !IsLoginPlay(p.id, version) && !CommandInjection.IsDeclareCommands(p.id, version)
  }

  function Ordinary(ps: seq<RawPacket>, version: int): seq<RawPacket>
  {
    if ps == [] then []
    else Ordinary(ps[..|ps| - 1], version) + if IsOrdinary(ps[|ps| - 1], version) then [ps[|ps| - 1]] else []
  }

  /** The ordinary packets the log says were relayed from connection `k`. */
  function OrdinaryRelayed(log: seq<Sent>, k: nat, version: int): seq<RawPacket>
  {
    if log == [] then []
    else
      var last := log[|log| - 1];
      OrdinaryRelayed(log[..|log| - 1], k, version)
      + if last.origin == Relayed(k) && IsOrdinary(last.packet, version) then [last.packet] else []
  }

  lemma {:induction false} RelayedStems(log: seq<Sent>, k: nat, version: int)
    ensures OrdinaryRelayed(EntriesFrom(log, k), k, version) == OrdinaryRelayed(log, k, version)
  {
    hide IsOrdinary;
    if log != [] {
      var n := |log| - 1;
      RelayedStems(log[..n], k, version);
      var front := EntriesFrom(log[..n], k);
      if StemsFrom(log[n], k) {
        assert (front + [log[n]])[..|front|] == front;
      } else {
        assert front + [] == front;
        assert OrdinaryRelayed(log[..n], k, version) + [] == OrdinaryRelayed(log[..n], k, version);
      }
    }
  }

  lemma {:induction false} OrdinaryImages(env: Env, ps: seq<RawPacket>, k: nat)
    ensures OrdinaryRelayed(Images(env, ps, k), k, env.version) == Ordinary(ps, env.version)
  {
    hide Forwarded, IsLoginPlay, CommandInjection.IsDeclareCommands, RespawnFor, HasLogin;
    if ps != [] {
      var n := |ps| - 1;
      OrdinaryImages(env, ps[..n], k);
      var front, pending := Images(env, ps[..n], k), k >= 1 && !HasLogin(ps[..n], env.version);
      ForwardedCases(env, pending, ps[n], k);
      var out := Forwarded(env, pending, ps[n], k);
      if IsPlayDisconnect(ps[n].id) {
        assert front + [] == front;
      } else {
        assert (front + [out])[..|front|] == front;
      }
    }
  }

  /** In particular, ordinary packets reach the client unchanged, all of them and in order. */
  lemma OrdinaryPacketsReachTheClient(env: Env, server: Bytes, client: Option<nat>, backend: Option<nat>, cache: Registry.Cache,
                                      events: seq<Event>, k: nat)
    requires env.Lawful() && server in env.servers
    ensures var s := Start(server, client, backend, cache); var w := Run(env, s, events).world;
            w.clientIntact ==> OrdinaryRelayed(w.clientLog, k, env.version) == Ordinary(Arrivals(env, s, events, k), env.version)
  {
    hide Run, Images, EntriesFrom, Arrivals, OrdinaryRelayed, Ordinary;
    var s := Start(server, client, backend, cache);
    ClientReceivesImages(env, server, client, backend, cache, events, k);
    RelayedStems(Run(env, s, events).world.clientLog, k, env.version);
    OrdinaryImages(env, Arrivals(env, s, events, k), k);
  }

  // ----- Whole runs, from the client to the backends -----

  /** The packet a turn passes on to connection `k`, if any. */
  function Outgoing(env: Env, s: State, e: Event, k: nat): seq<RawPacket>
  {
    if s.running && s.backend == Some(k) && e.ClientPacket? && Passes(e.packet, e.script, e.suggestions, env.version)
    then [e.packet] else []
  }

  /** The client packets of a run meant for the backend while connection `k` was the current one, in order. */
  function PassedOn(env: Env, s: State, events: seq<Event>, k: nat): seq<RawPacket>
  {
    if events == [] then []
    else
      var n := |events| - 1;
      PassedOn(env, s, events[..n], k) + Outgoing(env, Run(env, s, events[..n]), events[n], k)
  }

  /** Connection `k` was sent `ps` in addition, unless a write to it or to the client failed. */
  ghost predicate SentOn(s: State, s': State, k: nat, ps: seq<RawPacket>)
  {
    && k < |s.world.conns| <= |s'.world.conns| && KeepsFailure(s, s')
    && (s'.world.clientIntact && s'.world.conns[k].intact ==>
          s.world.conns[k].intact && s'.world.conns[k].sent == s.world.conns[k].sent + ps)
  }

  lemma KeepsConnsSends(s: State, s': State, k: nat)
    requires KeepsConns(s, s') && KeepsFailure(s, s') && k < |s.world.conns|
    ensures SentOn(s, s', k, [])
  {
    assert s'.world.conns[k] == s.world.conns[k];
    assert s.world.conns[k].sent + [] == s.world.conns[k].sent;
  }

  lemma DeliveredSends(s: State, s': State, p: RawPacket, j: nat, k: nat)
    requires Delivered(s, s', p, j) && KeepsFailure(s, s') && k < |s.world.conns|
    ensures SentOn(s, s', k, if j == k then [p] else [])
  {
    assert s.world.conns[k].sent + [] == s.world.conns[k].sent;
  }

  lemma StepSends(env: Env, threshold: Option<nat>, s: State, e: Event, k: nat)
    requires Inv(env, threshold, s) && k < |s.world.conns|
    ensures SentOn(s, Step(env, s, e), k, Outgoing(env, s, e, k))
  {
    hide HandleClient, HandleBackend, FailOver, SendClient, Passes, BackendEffect, Inv, Delivered, IsProtected, AddsOwn, SentOn, Outgoing;
    var s' := Step(env, s, e);
    InvUnfolds(env, threshold, s);
    if s.running && s.backend.Some? {
      match e {
        case ClientPacket(p, script, suggestions, connect) =>
          HandleClientEffect(env, s, p, script, suggestions, connect);
          ClientSends(env, s, HandleClient(env, s, p, script, suggestions, connect).0, s', e, k);
        case BackendPacket(p, connect) =>
          HandleBackendEffect(env, s, p, connect);
          assert KeepsFailure(s, s') by { EffectKeepsFailure(env, s, HandleBackend(env, s, p, connect).0, e); }
          KeepsConnsSends(s, s', k);
        case BackendGone(connect) =>
          FailOverIsOwn(env, s, ConnectionLost(s.currentServer), connect);
          KeepsConnsSends(s, s', k);
        case ShutdownSignal =>
          SendAppends(env, s, RawPacket(ShutdownId(env.version), env.shutdownPayload), FromProxy);
          KeepsConnsSends(s, s', k);
        case ClientGone => KeepsConnsSends(s, s', k);
      }
    } else {
      KeepsConnsSends(s, s', k);
    }
    assert !e.ClientPacket? || !s.running || s.backend.None? ==> Outgoing(env, s, e, k) == [] by { NothingGoesOut(env, s, e, k); }
  }

  lemma NothingGoesOut(env: Env, s: State, e: Event, k: nat)
    ensures !e.ClientPacket? || !s.running || s.backend.None? ==> Outgoing(env, s, e, k) == []
  {}

  lemma EffectKeepsFailure(env: Env, s: State, s': State, e: Event)
    requires BackendEffect(env, s, s', e)
    ensures KeepsFailure(s, s')
  {}

  lemma ClientSends(env: Env, s: State, s1: State, s': State, e: Event, k: nat)
    requires e.ClientPacket? && s.running && s.backend.Some? && s'.world == s1.world && k < |s.world.conns| <= |s1.world.conns|
    requires var passes := Passes(e.packet, e.script, e.suggestions, env.version);
             && KeepsFailure(s, s1) && (!passes ==> KeepsConns(s, s1))
             && (s1.world.clientIntact && passes ==> Delivered(s, s1, e.packet, s.backend.value))
    ensures SentOn(s, s', k, Outgoing(env, s, e, k))
  {
    hide Passes, Delivered;
    if !Passes(e.packet, e.script, e.suggestions, env.version) {
      KeepsConnsSends(s, s1, k);
    } else if s1.world.clientIntact {
      DeliveredSends(s, s1, e.packet, s.backend.value, k);
    }
  }

  /**
   * From any state that keeps the invariants, over any run: connection `k` is sent, behind what it had been
   * sent before, exactly the client packets that were neither protected, taken over by the script nor
   * answered by the proxy while it was the current one, in order, unless a write failed.
   */
  lemma {:induction false} BackendReceivesInOrder(env: Env, threshold: Option<nat>, s: State, events: seq<Event>, k: nat)
    requires env.Lawful() && Inv(env, threshold, s) && k < |s.world.conns|
    ensures SentOn(s, Run(env, s, events), k, PassedOn(env, s, events, k))
    decreases |events|
  {
    hide Inv, Step, Outgoing;
    var sent := s.world.conns[k].sent;
    if events == [] {
      assert sent + [] == sent;
    } else {
      var n := |events| - 1;
      BackendReceivesInOrder(env, threshold, s, events[..n], k);
      var s1 := Run(env, s, events[..n]);
      RunKeepsInv(env, threshold, s, events[..n]);
      StepSends(env, threshold, s1, events[n], k);
      var x, y := PassedOn(env, s, events[..n], k), Outgoing(env, s1, events[n], k);
      assert (sent + x) + y == sent + (x + y);
    }
  }

  /** The first backend of a session gets exactly what the client sends it. */
  lemma FirstBackendReceivesInOrder(env: Env, server: Bytes, client: Option<nat>, backend: Option<nat>, cache: Registry.Cache, events: seq<Event>)
    requires env.Lawful() && server in env.servers
    ensures var s := Start(server, client, backend, cache); var w := Run(env, s, events).world;
            && |w.conns| >= 1
            && (w.clientIntact && w.conns[0].intact ==> w.conns[0].sent == PassedOn(env, s, events, 0))
  {
    hide Run, Inv, PassedOn;
    var s := Start(server, client, backend, cache);
    StartHolds(env, server, client, backend, cache);
    BackendReceivesInOrder(env, client, s, events, 0);
    assert [] + PassedOn(env, s, events, 0) == PassedOn(env, s, events, 0);
  }

  /**
   * What a new backend has been sent when it becomes the current one: its configuration replies in order
   * and one acknowledgement, or nothing before protocol 764.
   */
  lemma NewBackendIsGreeted(env: Env, s: State, target: Bytes, connect: Connect)
    requires Switch(env, s, target, connect).1 == Ok(true)
    ensures var conns := Switch(env, s, target, connect).0.world.conns; var n := |s.world.conns|;
            && |conns| == n + 1 && conns[..n] == s.world.conns && conns[n].server == target && connect.Connected?
            && (env.version < 764 ==> conns[n].sent == [])
            && (env.version >= 764 ==>
                  exists i: nat :: (
                    && FinishesAt(connect.incoming, i, env.version)
                    && conns[n].sent == Replies(connect.incoming[..i], env.version) + [RawPacket(FinishId(env.version), [])]))
  {
    hide Configure, FinishesAt, TeardownPackets, SendAll, Frame;
    SwitchIsAllOrNothing(env, s, target, connect);
    var conn := Conn(target, connect.threshold, [], [], true);
    TeardownSends(env, s.(cache := HandshakeWith(env, s, target, connect).cache, backend := None));
    if env.version >= 764 {
      ConfigureFinishesIff(env, conn, s.cache, connect.incoming);
      var i: nat :| FinishesAt(connect.incoming, i, env.version);
      FinishedMeans(env, HandshakeWith(env, s, target, connect), conn, s.cache, connect.incoming, i);
    }
  }

  lemma FinishedMeans(env: Env, h: Handshake, conn: Conn, cache: Registry.Cache, incoming: seq<ConfigRead>, i: nat)
    requires FinishesAt(incoming, i, env.version) && FinishedWith(env, h, conn, cache, incoming[..i]) && conn.sent == []
    ensures h.conn.sent == Replies(incoming[..i], env.version) + [RawPacket(FinishId(env.version), [])]
  {
    hide Replies;
    assert [] + Replies(incoming[..i], env.version) == Replies(incoming[..i], env.version);
  }

  // ----- Protected channels -----

  lemma {:induction false} ArrivalsAreUnprotected(env: Env, s: State, events: seq<Event>, k: nat)
    ensures forall p :: p in Arrivals(env, s, events, k) ==> !NamesChannel(p.payload)
    decreases |events|
  {
    hide IsProtected, NamesChannel, Run;
    if events != [] {
      var n := |events| - 1;
      ArrivalsAreUnprotected(env, s, events[..n], k);
      var x := Arrival(Run(env, s, events[..n]), events[n]);
      if x != [] {
        ProtectedIff(events[n].packet);
        assert x[..0] == [] && PacketsFrom(x[..0], k) == [];
      }
    }
  }

  lemma {:induction false} PassedOnIsUnprotected(env: Env, s: State, events: seq<Event>, k: nat)
    ensures forall p :: p in PassedOn(env, s, events, k) ==> !NamesChannel(p.payload)
    decreases |events|
  {
    hide IsProtected, NamesChannel, Run, Intercepted, DecodesAsTabRequest;
    if events != [] {
      var n := |events| - 1;
      PassedOnIsUnprotected(env, s, events[..n], k);
      if events[n].ClientPacket? {
        ProtectedIff(events[n].packet);
      }
    }
  }

  /** A rewritten command tree has a zero byte behind its node count, where a channel name would begin. */
  lemma RewrittenNamesNothing(cut: CommandInjection.Cut, literals: seq<Bytes>)
    ensures !NamesChannel(CommandInjection.Reassemble(cut, literals))
  {
    hide EncodeVarInt, DecodeVarInt, CommandInjection.EncodeVarInts, CommandInjection.InjectedBytes, CommandInjection.NewChildren;
    var b := CommandInjection.Reassemble(cut, literals);
    var count := AsI32(cut.count + 2 + |literals|);
    AtSelf(EncodeVarInt(count), b[|EncodeVarInt(count)|..]);
    assert b == EncodeVarInt(count) + b[|EncodeVarInt(count)|..];
    VarIntRoundTrip(b, 0, count);
    var n := |EncodeVarInt(count)|;
    assert b[n] == 0;
    forall i | 0 <= i < |CHANNELS| ensures !Names(b, CHANNELS[i]) {
      assert CHANNELS[i][0] == 'v' || CHANNELS[i][0] == 'b';
      assert n + |CHANNELS[i]| <= |b| ==> !IsLetter(b[n..n + |CHANNELS[i]|][0], CHANNELS[i][0]);
    }
  }

  lemma ForwardedNamesNothing(env: Env, pending: bool, p: RawPacket, k: nat)
    requires !NamesChannel(p.payload)
    ensures var e := Forwarded(env, pending, p, k); e.origin.Relayed? ==> !NamesChannel(e.packet.payload)
  {
    hide NamesChannel, RespawnFor, CommandInjection.CutPayload, CommandInjection.Reassemble, CommandInjection.Literals,
         CommandInjection.IsDeclareCommands, IsLoginPlay;
    var cut := CommandInjection.CutPayload(p.payload);
    if cut.Ok? && cut.value.Some? {
      RewrittenNamesNothing(cut.value.value, CommandInjection.Literals(env.servers, env.normalize));
    }
  }

  lemma {:induction false} ImagesNameNothing(env: Env, ps: seq<RawPacket>, k: nat)
    requires forall p :: p in ps ==> !NamesChannel(p.payload)
    ensures forall e :: e in Images(env, ps, k) && e.origin == Relayed(k) ==> !NamesChannel(e.packet.payload)
  {
    hide NamesChannel, Forwarded, HasLogin;
    if ps != [] {
      var n := |ps| - 1;
      ImagesNameNothing(env, ps[..n], k);
      ForwardedNamesNothing(env, k >= 1 && !HasLogin(ps[..n], env.version), ps[n], k);
    }
  }

  lemma {:induction false} EntriesAreKept(log: seq<Sent>, e: Sent, k: nat)
    requires e in log && StemsFrom(e, k)
    ensures e in EntriesFrom(log, k)
  {
    var n := |log| - 1;
    if e != log[n] {
      assert e in log[..n];
      EntriesAreKept(log[..n], e, k);
    }
  }

  /**
   * No packet that begins with a protected channel name, in any mix of cases, crosses the proxy in a run:
   * none is passed on to a backend, none that a backend sent is handled, and none is relayed to the client.
   */
  lemma NothingProtectedCrosses(env: Env, server: Bytes, client: Option<nat>, backend: Option<nat>, cache: Registry.Cache,
                                events: seq<Event>, k: nat)
    requires env.Lawful() && server in env.servers
    ensures var s := Start(server, client, backend, cache); var w := Run(env, s, events).world;
            && (forall p :: p in PassedOn(env, s, events, k) || p in Arrivals(env, s, events, k) ==> !NamesChannel(p.payload))
            && (w.clientIntact ==>
                  forall i :: 0 <= i < |w.clientLog| && w.clientLog[i].origin == Relayed(k) ==> !NamesChannel(w.clientLog[i].packet.payload))
  {
    hide NamesChannel, Run, Images, EntriesFrom, Arrivals, PassedOn;
    var s := Start(server, client, backend, cache);
    var w := Run(env, s, events).world;
    PassedOnIsUnprotected(env, s, events, k);
    ArrivalsAreUnprotected(env, s, events, k);
    ClientReceivesImages(env, server, client, backend, cache, events, k);
    ImagesNameNothing(env, Arrivals(env, s, events, k), k);
    forall i | w.clientIntact && 0 <= i < |w.clientLog| && w.clientLog[i].origin == Relayed(k)
      ensures !NamesChannel(w.clientLog[i].packet.payload)
    {
      EntriesAreKept(w.clientLog, w.clientLog[i], k);
    }
  }
}
