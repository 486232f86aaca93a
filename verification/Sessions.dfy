/** What holds in every state a session can reach. */
module Sessions {
  import opened Wire
  import opened Codec
  import opened Display
  import opened PluginChannel
  import opened Routing
  import opened Transfers
  import Registry
  import Respawn
  import CommandInjection

  // ----- The four invariants -----

  /** The shadow is what a client that was sent the log displays. */
  ghost predicate Mirrors(env: Env, s: State)
  {
    && WellFormedShadow(s.shadow)
    && (s.world.clientIntact ==> Mirrored(s.shadow, Replay(Packets(s.world.clientLog), env.version), env.version))
  }

  ghost predicate Whole(env: Env, c: Conn)
  {
    c.intact ==> c.wire == FrameAll(env.zlib, c.sent, c.threshold)
  }

  /** Every stream carries exactly its packets, each framed at that stream's own threshold. */
  ghost predicate Wires(env: Env, threshold: Option<nat>, s: State)
  {
    && s.clientThreshold == threshold
    && (s.world.clientIntact ==> s.world.clientWire == FrameAll(env.zlib, Packets(s.world.clientLog), threshold))
    && (forall i :: 0 <= i < |s.world.conns| ==> Whole(env, s.world.conns[i]))
    && (forall i :: 0 <= i < |s.world.aborted| ==> Whole(env, s.world.aborted[i]))
  }

  /** The current backend is the newest connection and its threshold is in use; the server is a configured one. */
  ghost predicate Placed(env: Env, s: State)
  {
    && |s.world.conns| >= 1 && s.currentServer in env.servers
    && (s.running ==> s.backend.Some?)
    && (s.backend.Some? ==>
          s.backend.value == |s.world.conns| - 1 && s.backendThreshold == s.world.conns[|s.world.conns| - 1].threshold)
  }

  /** Logins handled from connection `k`. */
  function CountLogins(inbox: seq<Inbound>, k: nat, version: int): nat
  {
    if inbox == [] then 0
    else
      var last := inbox[|inbox| - 1];
      CountLogins(inbox[..|inbox| - 1], k, version) + if last.conn == k && IsLoginPlay(last.packet.id, version) then 1 else 0
  }

  /** Respawns sent in place of a Login from connection `k`. */
  function CountTranslated(log: seq<Sent>, k: nat): nat
  {
    if log == [] then 0
    else CountTranslated(log[..|log| - 1], k) + if log[|log| - 1].origin == Translated(k) then 1 else 0
  }

  /** The entry is a Login (Play) of connection `k`, sent on as it is. */
  predicate IsRelayedLogin(e: Sent, k: nat, version: int)
  {
    IsLoginPlay(e.packet.id, version) && e.origin == Relayed(k)
  }

  function CountRelayed(log: seq<Sent>, k: nat, version: int): nat
  {
    if log == [] then 0
    else CountRelayed(log[..|log| - 1], k, version) + if IsRelayedLogin(log[|log| - 1], k, version) then 1 else 0
  }

  /** Login (Play) packets the client was sent. */
  function CountLoginsSent(log: seq<Sent>, version: int): nat
  {
    if log == [] then 0
    else CountLoginsSent(log[..|log| - 1], version) + if IsLoginPlay(log[|log| - 1].packet.id, version) then 1 else 0
  }

  /** Whether a Respawn is due for connection `k`: a later one that sent a Login. */
  function Due(inbox: seq<Inbound>, k: nat, version: int): nat
  {
    if k >= 1 && CountLogins(inbox, k, version) >= 1 then 1 else 0
  }

  /** No connection sent more than one Login (Play). */
  ghost predicate OneLoginEach(inbox: seq<Inbound>, version: int)
  {
    forall k: nat :: CountLogins(inbox, k, version) <= 1
  }

  /** The `j`-th packet handled is the first Login of its connection. */
  ghost predicate IsFirstLogin(inbox: seq<Inbound>, j: nat, version: int)
  {
    && j < |inbox| && IsLoginPlay(inbox[j].packet.id, version)
    && CountLogins(inbox[..j], inbox[j].conn, version) == 0
  }

  /** A translated entry was made from the first Login of its connection, a relayed Login is one that was received. */
  ghost predicate IsGenuine(e: Sent, inbox: seq<Inbound>, version: int)
  {
    && (e.origin.Translated? ==>
          exists j: nat :: IsFirstLogin(inbox, j, version) && inbox[j].conn == e.origin.conn
                           && e.packet == RespawnFor(inbox[j].packet, version))
    && (e.origin.Relayed? && IsLoginPlay(e.packet.id, version) ==> Inbound(e.origin.conn, e.packet) in inbox)
  }

  /**
   * What became of the Logins of connection `k`: the first one of a later connection was turned into a
   * Respawn and every other one was sent on, unless a write failed.
   */
  ghost predicate Accounted(log: seq<Sent>, inbox: seq<Inbound>, intact: bool, k: nat, version: int)
  {
    var translated, relayed := CountTranslated(log, k), CountRelayed(log, k, version);
    var due, logins := Due(inbox, k, version), CountLogins(inbox, k, version);
    && translated <= due && relayed <= logins - due
    && (intact ==> translated == due && relayed == logins - due)
  }

  /** Entries are what they claim to be, the flag tells whether a Login is still to come, and every Login is accounted for. */
  ghost predicate LoginsKept(env: Env, s: State)
  {
    var w, v := s.world, env.version;
    && (forall i :: 0 <= i < |w.inbox| ==> w.inbox[i].conn < |w.conns|)
    && (forall i :: 0 <= i < |w.clientLog| ==> IsGenuine(w.clientLog[i], w.inbox, v))
    && (forall i :: 0 <= i < |w.clientLog| && IsLoginPlay(w.clientLog[i].packet.id, v) ==> w.clientLog[i].origin.Relayed?)
    && (s.transferPending <==> |w.conns| > 1 && CountLogins(w.inbox, |w.conns| - 1, v) == 0)
    && (forall k: nat :: Accounted(w.clientLog, w.inbox, w.clientIntact, k, v))
  }

  // ----- Mirrors -----

  lemma {:induction false} PacketsConcat(a: seq<Sent>, b: seq<Sent>)
    ensures Packets(a + b) == Packets(a) + Packets(b)
  {}

  lemma MirrorsAfter(env: Env, s: State, s': State, entries: seq<Sent>)
    requires Mirrors(env, s) && ClientGets(env, s, s', entries)
    requires Mirrored(s'.shadow, TrackAll(s.shadow, Packets(entries), env.version), env.version) && WellFormedShadow(s'.shadow)
    ensures Mirrors(env, s')
  {
    hide FrameAll, Packets, WellFormedShadow, Replay, TrackAll;
    if s'.world.clientIntact {
      TrackAllKeepsMirrored(s.shadow, Replay(Packets(s.world.clientLog), env.version), Packets(entries), env.version);
      PacketsConcat(s.world.clientLog, entries);
      ReplayConcat(Packets(s.world.clientLog), Packets(entries), env.version);
    }
  }

  lemma TrackOne(s: Shadow, e: Sent, version: int)
    ensures TrackAll(s, Packets([e]), version) == Track(s, e.packet, version)
  {
    hide Track;
    assert Packets([e]) == [e.packet];
    assert Packets([e])[1..] == [];
  }

  /** A message of the proxy that displays nothing. */
  predicate QuietId(id: i32, version: int)
  {
    Has(SystemChat, id, version) || Has(TabResponse, id, version) || Has(ShutdownNotice, id, version)
  }

  /** Such a message changes nothing that is displayed, except that chat sounds like audio at 761. */
  lemma QuietTracksNothing(s: Shadow, p: RawPacket, version: int)
    requires QuietId(p.id, version)
    ensures Track(s, p, version) == (if version == 761 && Has(SystemChat, p.id, version) then s.(audio := true) else s)
    ensures Mirrored(s, Track(s, p, version), version) && ProxyId(p.id, version)
  {
    hide Has;
    var c := if Has(SystemChat, p.id, version) then SystemChat else if Has(TabResponse, p.id, version) then TabResponse else ShutdownNotice;
    WatchedIsNoOther(c, p.id, version);
    if version == 761 && c == SystemChat {
      ChatIsHeard(s, p);
    } else {
      UntrackedChangesNothing(s, p, version);
    }
  }

  lemma ChatIsHeard(s: Shadow, p: RawPacket)
    requires Has(SystemChat, p.id, 761)
    ensures Track(s, p, 761) == s.(audio := true)
  {}

  // ----- Wires -----

  lemma WiresAfter(env: Env, threshold: Option<nat>, s: State, s': State, entries: seq<Sent>)
    requires Wires(env, threshold, s) && ClientGets(env, s, s', entries)
    requires forall i :: 0 <= i < |s'.world.conns| ==> Whole(env, s'.world.conns[i])
    requires forall i :: 0 <= i < |s'.world.aborted| ==> Whole(env, s'.world.aborted[i])
    ensures Wires(env, threshold, s')
  {
    hide FrameAll, Packets, Whole;
    if s'.world.clientIntact {
      PacketsConcat(s.world.clientLog, entries);
      FrameAllConcat(env.zlib, Packets(s.world.clientLog), Packets(entries), threshold);
    }
  }

  lemma AppendWhole(env: Env, c: Conn, p: RawPacket)
    requires Whole(env, c)
    ensures Whole(env, Append(env, c, p, c.threshold))
  {
    hide Frame;
    assert (c.sent + [p])[..|c.sent|] == c.sent;
  }

  lemma {:induction false} ConfigureWhole(env: Env, conn: Conn, cache: Registry.Cache, incoming: seq<ConfigRead>)
    requires Whole(env, conn)
    ensures Whole(env, Configure(env, conn, cache, incoming).conn)
    decreases |incoming|
  {
    hide Classify, FrameAll, Frame, Registry.Step;
    if incoming != [] && incoming[0].Read? {
      var p := incoming[0].packet;
      match Classify(p, env.version) {
        case CacheIt => ConfigureWhole(env, conn, Registry.Step(cache, p), incoming[1..]);
        case Reply(q) =>
          AppendWhole(env, conn, q);
          ConfigureWhole(env, Append(env, conn, q, conn.threshold), cache, incoming[1..]);
        case Finish(q) => AppendWhole(env, conn, q);
        case GiveUp =>
        case Skip => ConfigureWhole(env, conn, cache, incoming[1..]);
      }
    }
  }

  lemma HandshakeWhole(env: Env, s: State, target: Bytes, connect: Connect)
    requires connect.Connected?
    ensures Whole(env, HandshakeWith(env, s, target, connect).conn)
  {
    ConfigureWhole(env, Conn(target, connect.threshold, [], [], true), s.cache, connect.incoming);
  }

  // ----- Logins -----

  lemma CountLoginsAppend(inbox: seq<Inbound>, x: Inbound, k: nat, version: int)
    ensures CountLogins(inbox + [x], k, version)
         == CountLogins(inbox, k, version) + if x.conn == k && IsLoginPlay(x.packet.id, version) then 1 else 0
  {
    assert (inbox + [x])[..|inbox|] == inbox;
  }

  lemma {:induction false} NoLoginsBeyond(inbox: seq<Inbound>, n: nat, version: int)
    requires forall i :: 0 <= i < |inbox| ==> inbox[i].conn < n
    ensures CountLogins(inbox, n, version) == 0
  {
    hide IsLoginPlay;
    if inbox != [] {
      NoLoginsBeyond(inbox[..|inbox| - 1], n, version);
    }
  }

  /** Entries that are neither Logins nor translations. */
  ghost predicate Plain(entries: seq<Sent>, version: int)
  {
    forall i :: 0 <= i < |entries| ==> !entries[i].origin.Translated? && !IsLoginPlay(entries[i].packet.id, version)
  }

  lemma PlainMember(e: Sent, entries: seq<Sent>, version: int)
    requires e in entries && Plain(entries, version)
    ensures !e.origin.Translated? && !IsLoginPlay(e.packet.id, version)
  {}

  lemma {:induction false} PlainCounts(log: seq<Sent>, entries: seq<Sent>, k: nat, version: int)
    requires Plain(entries, version)
    ensures CountTranslated(log + entries, k) == CountTranslated(log, k)
    ensures CountRelayed(log + entries, k, version) == CountRelayed(log, k, version)
    decreases |entries|
  {
    hide IsLoginPlay;
    if entries == [] {
      assert log + entries == log;
    } else {
      var n := |entries| - 1;
      assert (log + entries)[..|log| + n] == log + entries[..n];
      PlainCounts(log, entries[..n], k, version);
    }
  }

  lemma ProxyIsPlain(ps: seq<RawPacket>, version: int)
    requires forall p :: p in ps ==> ProxyId(p.id, version)
    ensures Plain(AsProxy(ps), version)
  {
    hide Has;
    forall i | 0 <= i < |ps| ensures !IsLoginPlay(ps[i].id, version) {
      assert ps[i] in ps;
      ProxyIsNoLogin(ps[i].id, version);
    }
  }

  lemma ProxyIsNoLogin(id: i32, version: int)
    requires ProxyId(id, version)
    ensures !IsLoginPlay(id, version)
  {
    hide IsLoginPlay, BossBarId, ObjectiveId, DisplaySlotId, StopSoundId, SystemChatId, TabResponseId, ShutdownId, CloseContainerId;
    if IsLoginPlay(id, version) {
      forall c | Has(c, id, version) ensures c == LoginPlay {
        CollisionHasCause(LoginPlay, c, id, version);
      }
    }
  }

  /** Plain entries were added; the connection stayed, or a new one was installed with a transfer pending. */
  lemma LoginsAfterPlain(env: Env, s: State, s': State, entries: seq<Sent>)
    requires LoginsKept(env, s) && ClientGets(env, s, s', entries) && Plain(entries, env.version)
    requires s'.world.inbox == s.world.inbox
    requires || (|s'.world.conns| == |s.world.conns| && s'.transferPending == s.transferPending)
             || (|s'.world.conns| == |s.world.conns| + 1 && s'.transferPending && |s.world.conns| >= 1)
    ensures LoginsKept(env, s')
  {
    hide FrameAll, Packets, IsLoginPlay, CountLogins, CountTranslated, CountRelayed, RespawnFor;
    var w, w', v := s.world, s'.world, env.version;
    NoLoginsBeyond(w.inbox, |w.conns|, v);
    forall i | 0 <= i < |w'.clientLog|
      ensures IsGenuine(w'.clientLog[i], w'.inbox, v)
      ensures i >= |w.clientLog| ==> !IsLoginPlay(w'.clientLog[i].packet.id, v) && !w'.clientLog[i].origin.Translated?
      ensures i < |w.clientLog| ==> w'.clientLog[i] == w.clientLog[i]
    {
      if i >= |w.clientLog| {
        PlainMember(w'.clientLog[i], entries, v);
      }
    }
    var gained := w'.clientLog[|w.clientLog|..];
    assert w'.clientLog == w.clientLog + gained && Plain(gained, v);
    forall k: nat ensures Accounted(w'.clientLog, w'.inbox, w'.clientIntact, k, v) {
      assert Accounted(w.clientLog, w.inbox, w.clientIntact, k, v);
      PlainCounts(w.clientLog, gained, k, v);
    }
  }
}
