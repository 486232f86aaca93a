/** What sending, tearing down and switching do to a session, in closed form. */
module Transfers {
  import opened Wire
  import opened Fields
  import opened Codec
  import opened Display
  import opened Routing
  import opened ConfigPhase
  import Registry
  import Respawn
  import CommandInjection

  // ----- Sending -----

  function Packets(log: seq<Sent>): (ps: seq<RawPacket>)
    ensures |ps| == |log|
    ensures forall i :: 0 <= i < |log| ==> ps[i] == log[i].packet
  {
    if log == [] then [] else Packets(log[..|log| - 1]) + [log[|log| - 1].packet]
  }

  /** `s'` differs from `s` at most in what the client stream was sent. */
  ghost predicate OnlyClientSide(s: State, s': State)
  {
    s' == s.(world := s.world.(clientLog := s'.world.clientLog, clientWire := s'.world.clientWire,
                               clientIntact := s'.world.clientIntact, clientWrites := s'.world.clientWrites))
  }

  /** The packets `ps`, each tagged as the proxy's own. */
  function AsProxy(ps: seq<RawPacket>): (log: seq<Sent>)
    ensures |log| == |ps|
    ensures forall i :: 0 <= i < |ps| ==> log[i] == Sent(ps[i], FromProxy)
  {
    seq(|ps|, i requires 0 <= i < |ps| => Sent(ps[i], FromProxy))
  }

  /** Everything the log gained came from the proxy and has one of the packets in `ps`. */
  ghost predicate GainedOnly(log: seq<Sent>, log': seq<Sent>, ps: seq<RawPacket>)
  {
    log <= log' && forall i :: |log| <= i < |log'| ==> log'[i].origin == FromProxy && log'[i].packet in ps
  }

  /**
   * `s'` is `s` after the proxy sent `ps`: either every write succeeded, and then the log and the wire
   * gained exactly `ps`, or the client stream is no longer intact.
   */
  ghost predicate Sends(env: Env, s: State, s': State, ps: seq<RawPacket>)
  {
    && OnlyClientSide(s, s')
    && GainedOnly(s.world.clientLog, s'.world.clientLog, ps)
    && (s'.world.clientIntact ==>
          && s.world.clientIntact
          && s'.world.clientLog == s.world.clientLog + AsProxy(ps)
          && s'.world.clientWire == s.world.clientWire + FrameAll(env.zlib, ps, s.clientThreshold))
  }

  lemma SendOne(env: Env, s: State, p: RawPacket)
    ensures Sends(env, s, Send(env, s, p), [p])
  {
    hide Frame;
    assert FrameAll(env.zlib, [p], s.clientThreshold) == Frame(env.zlib, p, s.clientThreshold) by {
      assert FrameAll(env.zlib, [p][..0], s.clientThreshold) == [];
    }
    assert AsProxy([p]) == [Sent(p, FromProxy)];
  }

  lemma GainedTrans(l0: seq<Sent>, l1: seq<Sent>, l2: seq<Sent>, ps: seq<RawPacket>, qs: seq<RawPacket>)
    requires GainedOnly(l0, l1, ps) && GainedOnly(l1, l2, qs)
    ensures GainedOnly(l0, l2, ps + qs)
  {
    forall i | |l0| <= i < |l2| ensures l2[i].origin == FromProxy && l2[i].packet in ps + qs {
      if i < |l1| {
        assert l2[i] == l1[i];
      }
    }
  }

  lemma SendsCompose(env: Env, s0: State, s1: State, s2: State, ps: seq<RawPacket>, qs: seq<RawPacket>)
    requires Sends(env, s0, s1, ps) && Sends(env, s1, s2, qs)
    ensures Sends(env, s0, s2, ps + qs)
  {
    hide FrameAll, GainedOnly;
    GainedTrans(s0.world.clientLog, s1.world.clientLog, s2.world.clientLog, ps, qs);
    FrameAllConcat(env.zlib, ps, qs, s0.clientThreshold);
    if s2.world.clientIntact {
      assert AsProxy(ps + qs) == AsProxy(ps) + AsProxy(qs);
      var a, b, c := s0.world.clientWire, FrameAll(env.zlib, ps, s0.clientThreshold), FrameAll(env.zlib, qs, s0.clientThreshold);
      Associative(a, b, c);
    }
  }

  lemma {:induction false} SendAllSends(env: Env, s: State, ps: seq<RawPacket>)
    ensures Sends(env, s, SendAll(env, s, ps), ps)
    decreases |ps|
  {
    hide Sends, Send;
    if ps == [] {
      SendNothing(env, s);
    } else {
      var s1 := Send(env, s, ps[0]);
      SendOne(env, s, ps[0]);
      SendAllSends(env, s1, ps[1..]);
      SendsCompose(env, s, s1, SendAll(env, s, ps), [ps[0]], ps[1..]);
      assert ps == [ps[0]] + ps[1..];
    }
  }

  lemma SendNothing(env: Env, s: State)
    ensures Sends(env, s, s, [])
  {
    assert AsProxy([]) == [];
  }

  lemma {:induction false} SendAllConcat(env: Env, s: State, ps: seq<RawPacket>, qs: seq<RawPacket>)
    ensures SendAll(env, s, ps + qs) == SendAll(env, SendAll(env, s, ps), qs)
    decreases |ps|
  {
    hide Send;
    if ps == [] {
      assert ps + qs == qs;
    } else {
      assert (ps + qs)[1..] == ps[1..] + qs;
      SendAllConcat(env, Send(env, s, ps[0]), ps[1..], qs);
    }
  }

  /** Sending neither looks at nor changes the shadow. */
  lemma {:induction false} SendAllIgnoresShadow(env: Env, s: State, ps: seq<RawPacket>, x: Shadow)
    ensures SendAll(env, s.(shadow := x), ps) == SendAll(env, s, ps).(shadow := x)
    decreases |ps|
  {
    hide Frame;
    if ps != [] {
      SendAllIgnoresShadow(env, Send(env, s, ps[0]), ps[1..], x);
    }
  }

  // ----- Tearing down -----

  /** Tracking a whole sequence of packets. */
  function TrackAll(s: Shadow, ps: seq<RawPacket>, version: int): Shadow
    decreases |ps|
  {
    if ps == [] then s else TrackAll(Track(s, ps[0], version), ps[1..], version)
  }

  lemma {:induction false} TrackAllConcat(s: Shadow, ps: seq<RawPacket>, qs: seq<RawPacket>, version: int)
    ensures TrackAll(s, ps + qs, version) == TrackAll(TrackAll(s, ps, version), qs, version)
    decreases |ps|
  {
    hide Track;
    if ps == [] {
      assert ps + qs == qs;
    } else {
      assert (ps + qs)[1..] == ps[1..] + qs;
      TrackAllConcat(Track(s, ps[0], version), ps[1..], qs, version);
    }
  }

  lemma {:induction false} ReplayConcat(log: seq<RawPacket>, ps: seq<RawPacket>, version: int)
    ensures Replay(log + ps, version) == TrackAll(Replay(log, version), ps, version)
    decreases |ps|
  {
    hide Track;
    if ps == [] {
      assert log + ps == log;
    } else {
      assert log + ps == (log + [ps[0]]) + ps[1..];
      ReplayConcat(log + [ps[0]], ps[1..], version);
      ReplayAppend(log, ps[0], version);
    }
  }

  lemma {:induction false} TrackAllKeepsMirrored(s: Shadow, r: Shadow, ps: seq<RawPacket>, version: int)
    requires Mirrored(s, r, version)
    ensures Mirrored(TrackAll(s, ps, version), TrackAll(r, ps, version), version)
    decreases |ps|
  {
    hide Track, Mirrored;
    if ps != [] {
      TrackKeepsMirrored(s, r, ps[0], version);
      TrackAllKeepsMirrored(Track(s, ps[0], version), Track(r, ps[0], version), ps[1..], version);
    }
  }

  function Elements<T>(xs: seq<T>): set<T> { set x | x in xs }

  lemma {:induction false} ObjectivesGo(s: Shadow, names: seq<Bytes>, version: int)
    requires forall i :: 0 <= i < |names| ==> IsText(names[i])
    ensures TrackAll(s, ObjectiveRemovals(names, version), version) == s.(objectives := s.objectives - Elements(names))
    decreases |names|
  {
    hide Track, IsText, RemoveObjective;
    if names != [] {
      assert ObjectiveRemovals(names, version)[1..] == ObjectiveRemovals(names[1..], version);
      RemoveObjectiveRemoves(s, names[0], version);
      ObjectivesGo(s.(objectives := s.objectives - {names[0]}), names[1..], version);
      assert s.objectives - {names[0]} - Elements(names[1..]) == s.objectives - Elements(names);
    }
  }

  lemma {:induction false} SlotsGo(s: Shadow, slots: seq<i32>, version: int)
    ensures TrackAll(s, SlotClears(slots, version), version) == s.(slots := s.slots - Elements(slots))
    decreases |slots|
  {
    hide Track, ClearSlot;
    if slots != [] {
      assert SlotClears(slots, version)[1..] == SlotClears(slots[1..], version);
      ClearSlotClears(s, slots[0], version);
      SlotsGo(s.(slots := s.slots - {slots[0]}), slots[1..], version);
      assert s.slots - {slots[0]} - Elements(slots[1..]) == s.slots - Elements(slots);
    }
  }

  lemma {:induction false} BarsGo(s: Shadow, bars: seq<Bytes>, version: int)
    requires forall i :: 0 <= i < |bars| ==> |bars[i]| == 16
    ensures TrackAll(s, BarRemovals(bars, version), version) == s.(bars := s.bars - Elements(bars))
    decreases |bars|
  {
    hide Track, RemoveBar;
    if bars != [] {
      assert BarRemovals(bars, version)[1..] == BarRemovals(bars[1..], version);
      RemoveBarRemoves(s, bars[0], version);
      BarsGo(s.(bars := s.bars - {bars[0]}), bars[1..], version);
      assert s.bars - {bars[0]} - Elements(bars[1..]) == s.bars - Elements(bars);
    }
  }

  lemma EnumerationCovers<T(!new)>(xs: seq<T>, s: set<T>)
    requires Enumerates(xs, s)
    ensures s - Elements(xs) == {} && forall i :: 0 <= i < |xs| ==> xs[i] in s
  {
    assert forall i :: 0 <= i < |xs| ==> xs[i] in xs;
  }

  /** The first two kinds of teardown packets. */
  function QuietPackets(env: Env, s: State): seq<RawPacket>
  {
    (if s.openContainer.Some? then [CloseContainerPacket(s.openContainer.value, env.version)] else [])
    + (if s.shadow.audio then [StopAllSounds(env.version)] else [])
  }

  lemma QuietPacketsSilence(env: Env, s: State)
    ensures TrackAll(s.shadow, QuietPackets(env, s), env.version)
         == s.shadow.(audio := s.shadow.audio && 759 <= env.version <= 760)
  {
    hide Track;
    var v := env.version;
    var close := if s.openContainer.Some? then [CloseContainerPacket(s.openContainer.value, v)] else [];
    var stop := if s.shadow.audio then [StopAllSounds(v)] else [];
    TrackAllConcat(s.shadow, close, stop, v);
    WatchedIsNoOther(CloseContainer, CloseContainerId(v), v);
    if s.openContainer.Some? {
      UntrackedChangesNothing(s.shadow, close[0], v);
      assert close[1..] == [];
    }
    StopAllSilencesIff(s.shadow, v);
    assert s.shadow.audio ==> stop[1..] == [];
  }

  /**
   * Whatever order the sets are drained in, the teardown packets leave nothing displayed; only at
   * protocols 759 and 760 does sound that was playing stay on.
   */
  lemma TeardownLeavesNothing(env: Env, s: State)
    requires env.Lawful() && WellFormedShadow(s.shadow)
    ensures TrackAll(s.shadow, TeardownPackets(env, s), env.version)
         == NOTHING.(audio := s.shadow.audio && 759 <= env.version <= 760)
  {
    hide TrackAll, ObjectiveRemovals, SlotClears, BarRemovals, QuietPackets, IsText;
    var v, n := env.version, s.world.clientWrites;
    var names, slots, bars := env.objectiveOrder(n, s.shadow.objectives), env.slotOrder(n, s.shadow.slots), env.barOrder(n, s.shadow.bars);
    EnumerationCovers(names, s.shadow.objectives);
    EnumerationCovers(slots, s.shadow.slots);
    EnumerationCovers(bars, s.shadow.bars);
    var q, o, l, b := QuietPackets(env, s), ObjectiveRemovals(names, v), SlotClears(slots, v), BarRemovals(bars, v);
    assert TeardownPackets(env, s) == ((q + o) + l) + b by { TeardownUnfolds(env, s); }
    TrackAllConcat(s.shadow, (q + o) + l, b, v);
    TrackAllConcat(s.shadow, q + o, l, v);
    TrackAllConcat(s.shadow, q, o, v);
    QuietPacketsSilence(env, s);
    var s1 := s.shadow.(audio := s.shadow.audio && 759 <= v <= 760);
    ObjectivesGo(s1, names, v);
    var s2 := s1.(objectives := {});
    SlotsGo(s2, slots, v);
    BarsGo(s2.(slots := {}), bars, v);
  }

  lemma TeardownUnfolds(env: Env, s: State)
    ensures var n := s.world.clientWrites;
            TeardownPackets(env, s) == ((QuietPackets(env, s)
              + ObjectiveRemovals(env.objectiveOrder(n, s.shadow.objectives), env.version))
              + SlotClears(env.slotOrder(n, s.shadow.slots), env.version))
              + BarRemovals(env.barOrder(n, s.shadow.bars), env.version)
  {}

  lemma {:induction false} EnumerationSize<T(!new)>(xs: seq<T>, s: set<T>)
    requires Enumerates(xs, s)
    ensures |xs| == |s|
    decreases |xs|
  {
    if xs == [] {
      assert s == {};
    } else {
      var x, rest := xs[0], xs[1..];
      assert xs == [x] + rest && x in s;
      forall y ensures y in rest <==> y in s - {x} {
        if y in rest {
          var i :| 0 <= i < |rest| && rest[i] == y;
          assert xs[i + 1] == y;
        }
      }
      EnumerationSize(rest, s - {x});
    }
  }

  /**
   * The teardown sends no more than it takes: one packet closing the tracked window, one stopping the
   * sound that is playing, and one for each tracked objective, slot and bar.
   */
  lemma TeardownIsMinimal(env: Env, s: State)
    requires env.Lawful()
    ensures var ps := TeardownPackets(env, s);
            && |ps| == (if s.openContainer.Some? then 1 else 0) + (if s.shadow.audio then 1 else 0)
                       + |s.shadow.objectives| + |s.shadow.slots| + |s.shadow.bars|
            && (s.openContainer.Some? ==> ps[0] == RawPacket(CloseContainerId(env.version), [s.openContainer.value]))
  {
    hide ObjectiveRemovals, SlotClears, BarRemovals;
    var n := s.world.clientWrites;
    EnumerationSize(env.objectiveOrder(n, s.shadow.objectives), s.shadow.objectives);
    EnumerationSize(env.slotOrder(n, s.shadow.slots), s.shadow.slots);
    EnumerationSize(env.barOrder(n, s.shadow.bars), s.shadow.bars);
  }

  /** The ids the proxy itself ever sends: chat, completions, teardown packets, the shutdown notice. */
  predicate ProxyId(id: i32, version: int)
  {
    || Has(SystemChat, id, version) || Has(TabResponse, id, version) || Has(ShutdownNotice, id, version)
    || Has(CloseContainer, id, version) || Has(StopSound, id, version)
    || Has(Objective, id, version) || Has(DisplaySlot, id, version) || Has(BossBar, id, version)
  }

  lemma TeardownIds(env: Env, s: State, p: RawPacket)
    requires p in TeardownPackets(env, s)
    ensures ProxyId(p.id, env.version)
  {}

  // ----- Switching -----

  lemma TeardownSends(env: Env, s: State)
    ensures Sends(env, s.(openContainer := None, shadow := NOTHING), Teardown(env, s), TeardownPackets(env, s))
  {
    hide Sends, TeardownPackets;
    SendAllSends(env, s.(openContainer := None, shadow := NOTHING), TeardownPackets(env, s));
  }

  lemma {:induction false} ConfigureKeeps(env: Env, conn: Conn, cache: Registry.Cache, incoming: seq<ConfigRead>)
    ensures var h := Configure(env, conn, cache, incoming);
            h.conn.server == conn.server && h.conn.threshold == conn.threshold && cache.Keys <= h.cache.Keys
    decreases |incoming|
  {
    hide Classify, Frame, Registry.Decode;
    if incoming != [] && incoming[0].Read? {
      var p := incoming[0].packet;
      match Classify(p, env.version) {
        case CacheIt => ConfigureKeeps(env, conn, Registry.Step(cache, p), incoming[1..]);
        case Reply(q) => ConfigureKeeps(env, Append(env, conn, q, conn.threshold), cache, incoming[1..]);
        case Skip => ConfigureKeeps(env, conn, cache, incoming[1..]);
        case _ =>
      }
    }
  }

  /** The reply a configuration packet asks for: known packs are answered with none, keep-alives and pings echoed. */
  function Owed(p: RawPacket, version: int): seq<RawPacket>
  {
    if version >= 766 && p.id == 0x0E then [RawPacket(0x07, [0])]
    else if p.id == 0x04 || (version >= 766 && p.id == 0x05) then [p]
    else []
  }

  /** A read after which the configuration loop goes on. */
  predicate GoesOn(r: ConfigRead, version: int)
  {
    && r.Read? && r.packet.id != FinishId(version) && r.packet.id != DisconnectId(version)
    && (Owed(r.packet, version) != [] ==> r.replied)
  }

  /** The configuration ends well at read `n`: FinishConfiguration, acknowledged, after reads that all went on. */
  ghost predicate FinishesAt(incoming: seq<ConfigRead>, n: nat, version: int)
  {
    && n < |incoming| && incoming[n].Read? && incoming[n].replied && incoming[n].packet.id == FinishId(version)
    && forall i :: 0 <= i < n ==> GoesOn(incoming[i], version)
  }

  function PacketsRead(incoming: seq<ConfigRead>): seq<RawPacket>
    decreases |incoming|
  {
    if incoming == [] then []
    else (if incoming[0].Read? then [incoming[0].packet] else []) + PacketsRead(incoming[1..])
  }

  /** What the target is sent for reads that went on. */
  function Replies(incoming: seq<ConfigRead>, version: int): seq<RawPacket>
    decreases |incoming|
  {
    if incoming == [] then []
    else (if incoming[0].Read? then Owed(incoming[0].packet, version) else []) + Replies(incoming[1..], version)
  }

  /** What a handshake that finished at read `n` leaves: every reply in order, one acknowledgement, the registries cached. */
  ghost predicate FinishedWith(env: Env, h: Handshake, conn: Conn, cache: Registry.Cache, read: seq<ConfigRead>)
  {
    && h.conn.sent == conn.sent + Replies(read, env.version) + [RawPacket(FinishId(env.version), [])]
    && h.cache == Registry.After(cache, PacketsRead(read))
  }

  /**
   * The configuration of a target finishes exactly when it sends FinishConfiguration before anything
   * fails; it was then sent one reply to each known-packs, keep-alive or ping packet, in order, and one
   * acknowledgement at the end, and the cache is what the packets read make it.
   */
  lemma {:induction false} ConfigureFinishesIff(env: Env, conn: Conn, cache: Registry.Cache, incoming: seq<ConfigRead>)
    ensures var h := Configure(env, conn, cache, incoming); var v := env.version;
            && (h.finished <==> exists n: nat :: FinishesAt(incoming, n, v))
            && forall n: nat :: FinishesAt(incoming, n, v) ==> FinishedWith(env, h, conn, cache, incoming[..n])
    decreases |incoming|
  {
    hide Configure, GoesOn, FinishedWith;
    var v := env.version;
    if incoming == [] || !GoesOn(incoming[0], v) {
      ConfigureStops(env, conn, cache, incoming);
      assert forall n: nat :: FinishesAt(incoming, n, v) ==> n == 0;
    } else {
      var conn', cache' := ConfigureGoesOn(env, conn, cache, incoming);
      ConfigureFinishesIff(env, conn', cache', incoming[1..]);
      FinishesLater(incoming, v);
      forall n: nat | FinishesAt(incoming, n, v)
        ensures FinishedWith(env, Configure(env, conn, cache, incoming), conn, cache, incoming[..n])
      {
        assert FinishesAt(incoming[1..], n - 1, v);
        FinishedCons(env, Configure(env, conn, cache, incoming), conn, cache, conn', cache', incoming, n);
      }
    }
  }

  /** One read that went on, put in front of a handshake that finished. */
  lemma FinishedCons(env: Env, h: Handshake, conn: Conn, cache: Registry.Cache, conn': Conn, cache': Registry.Cache, incoming: seq<ConfigRead>, n: nat)
    requires 0 < n <= |incoming| && incoming[0].Read?
    requires FinishedWith(env, h, conn', cache', incoming[1..][..n - 1])
    requires conn'.sent == conn.sent + Owed(incoming[0].packet, env.version) && cache' == Registry.Step(cache, incoming[0].packet)
    ensures FinishedWith(env, h, conn, cache, incoming[..n])
  {
    hide Owed, Registry.Step, Registry.After;
    var rest := incoming[1..][..n - 1];
    assert incoming[..n][1..] == rest && incoming[..n][0] == incoming[0];
    assert conn'.sent + Replies(rest, env.version) == conn.sent + Replies(incoming[..n], env.version);
    Registry.AfterCons(cache, incoming[0].packet, PacketsRead(rest));
  }

  /** The branches of the configuration loop, told apart by id. */
  lemma ClassifyMeaning(p: RawPacket, version: int)
    ensures var a := Classify(p, version);
            && (a.Finish? <==> p.id == FinishId(version)) && (a.GiveUp? <==> p.id == DisconnectId(version))
            && (a.Finish? ==> a.packet == RawPacket(FinishId(version), []))
            && Owed(p, version) == (if a.Reply? then [a.packet] else [])
            && (!a.CacheIt? ==> p.id != Registry.REGISTRY_DATA_ID)
  {}

  lemma ConfigureStops(env: Env, conn: Conn, cache: Registry.Cache, incoming: seq<ConfigRead>)
    requires incoming == [] || !GoesOn(incoming[0], env.version)
    ensures var h := Configure(env, conn, cache, incoming);
            && (h.finished <==> FinishesAt(incoming, 0, env.version))
            && (h.finished ==> FinishedWith(env, h, conn, cache, incoming[..0]))
  {
    hide Classify, Frame, Registry.Step, Owed;
    assert conn.sent + [] == conn.sent;
    if incoming != [] && incoming[0].Read? {
      ClassifyMeaning(incoming[0].packet, env.version);
    }
  }

  lemma ConfigureGoesOn(env: Env, conn: Conn, cache: Registry.Cache, incoming: seq<ConfigRead>) returns (conn': Conn, cache': Registry.Cache)
    requires incoming != [] && GoesOn(incoming[0], env.version)
    ensures incoming[0].Read? && Configure(env, conn, cache, incoming) == Configure(env, conn', cache', incoming[1..])
    ensures conn'.sent == conn.sent + Owed(incoming[0].packet, env.version)
    ensures cache' == Registry.Step(cache, incoming[0].packet)
  {
    hide Classify, Frame, Registry.Step, Owed;
    var p, v := incoming[0].packet, env.version;
    ClassifyMeaning(p, v);
    conn' := if Classify(p, v).Reply? then Append(env, conn, Classify(p, v).packet, conn.threshold) else conn;
    cache' := if Classify(p, v).CacheIt? then Registry.Step(cache, p) else cache;
    assert conn.sent + [] == conn.sent;
    Registry.OthersIgnored(cache, p);
  }

  /**
   * A ping (0x05) during the configuration is answered from protocol 766 on; before, it is taken for
   * registry data, changes neither cache nor connection, and goes unanswered.
   */
  lemma PingIsAnsweredIff(env: Env, conn: Conn, cache: Registry.Cache, p: RawPacket, rest: seq<ConfigRead>)
    requires p.id == 0x05
    ensures var after := if env.version >= 766 then Append(env, conn, p, conn.threshold) else conn;
            Configure(env, conn, cache, [Read(p, true)] + rest) == Configure(env, after, cache, rest)
  {
    hide Frame, Registry.Decode;
    assert ([Read(p, true)] + rest)[1..] == rest;
    Registry.OthersIgnored(cache, p);
  }

  lemma FinishesLater(incoming: seq<ConfigRead>, version: int)
    requires incoming != [] && GoesOn(incoming[0], version)
    ensures forall n: nat :: FinishesAt(incoming, n, version) ==> n > 0 && FinishesAt(incoming[1..], n - 1, version)
    ensures forall n: nat :: FinishesAt(incoming[1..], n, version) ==> FinishesAt(incoming, n + 1, version)
  {
    hide Owed;
  }

  /** The handshake a switch to `target` ends with. */
  function HandshakeWith(env: Env, s: State, target: Bytes, connect: Connect): Handshake
    requires connect.Connected?
  {
    Prepare(env, Conn(target, connect.threshold, [], [], true), s.cache, connect.incoming)
  }

  lemma HandshakeKeeps(env: Env, s: State, target: Bytes, connect: Connect)
    requires connect.Connected?
    ensures var h := HandshakeWith(env, s, target, connect);
            h.conn.server == target && h.conn.threshold == connect.threshold && s.cache.Keys <= h.cache.Keys
  {
    ConfigureKeeps(env, Conn(target, connect.threshold, [], [], true), s.cache, connect.incoming);
  }

  /** A switch goes through: the target is configured, reachable, and finished its configuration. */
  predicate Succeeds(env: Env, s: State, target: Bytes, connect: Connect)
  {
    target in env.servers && connect.Connected? && HandshakeWith(env, s, target, connect).finished
  }

  /** The target is configured, its connector answers, and from 764 on it finishes its configuration. */
  ghost predicate Reachable(env: Env, target: Bytes, connect: Connect)
  {
    && target in env.servers && connect.Connected?
    && (env.version >= 764 ==> exists n: nat :: FinishesAt(connect.incoming, n, env.version))
  }

  lemma SucceedsIffReachable(env: Env, s: State, target: Bytes, connect: Connect)
    ensures Succeeds(env, s, target, connect) <==> Reachable(env, target, connect)
  {
    hide FinishesAt, Configure;
    if connect.Connected? && env.version >= 764 {
      ConfigureFinishesIff(env, Conn(target, connect.threshold, [], [], true), s.cache, connect.incoming);
    }
  }

  /** How many reads the configuration loop goes on after. */
  function GoneOn(incoming: seq<ConfigRead>, version: int): (n: nat)
    ensures n <= |incoming|
    decreases |incoming|
  {
    if incoming == [] || !GoesOn(incoming[0], version) then 0 else 1 + GoneOn(incoming[1..], version)
  }

  /** Whether or not the configuration finishes, the cache is what the packets read make it. */
  lemma {:induction false} ConfigureCaches(env: Env, conn: Conn, cache: Registry.Cache, incoming: seq<ConfigRead>)
    ensures var n := GoneOn(incoming, env.version);
            Configure(env, conn, cache, incoming).cache == Registry.After(cache, PacketsRead(incoming[..n]))
    decreases |incoming|
  {
    hide Configure, GoesOn, Registry.After, Registry.Step;
    if incoming == [] || !GoesOn(incoming[0], env.version) {
      StoppedCaches(env, conn, cache, incoming);
    } else {
      var conn', cache' := ConfigureGoesOn(env, conn, cache, incoming);
      ConfigureCaches(env, conn', cache', incoming[1..]);
      var n := GoneOn(incoming[1..], env.version);
      assert incoming[..n + 1][1..] == incoming[1..][..n];
      Registry.AfterCons(cache, incoming[0].packet, PacketsRead(incoming[1..][..n]));
    }
  }

  lemma StoppedCaches(env: Env, conn: Conn, cache: Registry.Cache, incoming: seq<ConfigRead>)
    requires incoming == [] || !GoesOn(incoming[0], env.version)
    ensures Configure(env, conn, cache, incoming).cache == Registry.After(cache, PacketsRead(incoming[..0]))
  {
    hide Classify, Frame, Registry.Step, Owed;
    if incoming != [] && incoming[0].Read? {
      ClassifyMeaning(incoming[0].packet, env.version);
    }
  }

  /** The registry cache after a switch to `target`: the packets read during its configuration were cached. */
  ghost predicate CachedFrom(env: Env, s: State, s': State, target: Bytes, connect: Connect)
  {
    s'.cache ==
      if target in env.servers && connect.Connected? && env.version >= 764
      then Registry.After(s.cache, PacketsRead(connect.incoming[..GoneOn(connect.incoming, env.version)]))
      else s.cache
  }

  lemma SwitchCaches(env: Env, s: State, target: Bytes, connect: Connect)
    ensures CachedFrom(env, s, Switch(env, s, target, connect).0, target, connect)
  {
    hide Frame, Configure, TeardownPackets, SendAll, Registry.After, GoneOn;
    if target in env.servers && connect.Connected? {
      ConfigureCaches(env, Conn(target, connect.threshold, [], [], true), s.cache, connect.incoming);
      TeardownSends(env, s.(cache := HandshakeWith(env, s, target, connect).cache, backend := None));
    }
  }

  /** Everything but the registry cache, the list of given-up connections and the client stream is as before. */
  ghost predicate Untouched(s: State, s': State)
  {
    && s' == s.(cache := s'.cache, world := s.world.(clientLog := s'.world.clientLog, clientWire := s'.world.clientWire,
                  clientIntact := s'.world.clientIntact, clientWrites := s'.world.clientWrites, aborted := s'.world.aborted))
    && s.cache.Keys <= s'.cache.Keys
  }

  /** Stream, threshold and name were installed together, a transfer is pending and nothing is shadowed. */
  ghost predicate Installed(s: State, s': State, target: Bytes, threshold: Option<nat>)
  {
    && s'.currentServer == target && s'.transferPending && s'.backendThreshold == threshold
    && s'.backend == Some(|s.world.conns|) && |s'.world.conns| == |s.world.conns| + 1
    && s'.world.conns[..|s.world.conns|] == s.world.conns
    && s'.world.conns[|s.world.conns|].server == target && s'.world.conns[|s.world.conns|].threshold == threshold
    && s'.shadow == NOTHING && s'.openContainer == None
    && s'.clientThreshold == s.clientThreshold && s'.running == s.running
    && s'.world.aborted == s.world.aborted && s'.world.inbox == s.world.inbox
    && s'.world.fallbacks == s.world.fallbacks && s'.world.requested == s.world.requested
  }

  /**
   * A switch is all or nothing, for every sequence of configuration packets the target sends:
   * it returns Ok(true) exactly when it succeeds, and then everything is installed together; on any
   * other outcome backend, thresholds, server, pending flag and shadow are untouched.
   */
  lemma SwitchIsAllOrNothing(env: Env, s: State, target: Bytes, connect: Connect)
    ensures var (s', r) := Switch(env, s, target, connect);
            && (r == Ok(true) <==> Succeeds(env, s, target, connect))
            && (r == Ok(true) ==> Installed(s, s', target, connect.threshold))
            && (r != Ok(true) ==> Untouched(s, s'))
            && CachedFrom(env, s, s', target, connect)
            && (r == Ok(true) <==> Reachable(env, target, connect))
            && (r.Err? ==> target !in env.servers && !s'.world.clientIntact)
  {
    hide Frame, Prepare, TeardownPackets, SendAll, CachedFrom, Reachable;
    SwitchCaches(env, s, target, connect);
    SucceedsIffReachable(env, s, target, connect);
    if target in env.servers && connect.Connected? {
      HandshakeKeeps(env, s, target, connect);
      var h := HandshakeWith(env, s, target, connect);
      TeardownSends(env, s.(cache := h.cache, backend := None));
    }
  }

  /** What the proxy tries to send the client during a switch. */
  function SwitchPackets(env: Env, s: State, target: Bytes, connect: Connect): seq<RawPacket>
  {
    hide HandshakeWith;
    if target !in env.servers then [Chat(env, ServerNotFound(target))]
    else if Succeeds(env, s, target, connect) then TeardownPackets(env, s)
    else [Chat(env, ConnectFailed(target))]
  }

  /** The client stream gained `entries`, or is no longer intact. */
  ghost predicate ClientGets(env: Env, s: State, s': State, entries: seq<Sent>)
  {
    && s'.clientThreshold == s.clientThreshold
    && s.world.clientLog <= s'.world.clientLog
    && (forall i :: |s.world.clientLog| <= i < |s'.world.clientLog| ==> s'.world.clientLog[i] in entries)
    && (s'.world.clientIntact ==>
          && s.world.clientIntact
          && s'.world.clientLog == s.world.clientLog + entries
          && s'.world.clientWire == s.world.clientWire + FrameAll(env.zlib, Packets(entries), s.clientThreshold))
  }

  lemma PacketsOfProxy(ps: seq<RawPacket>)
    ensures Packets(AsProxy(ps)) == ps
  {}

  lemma SendsGives(env: Env, s: State, s': State, ps: seq<RawPacket>)
    requires Sends(env, s, s', ps)
    ensures ClientGets(env, s, s', AsProxy(ps))
  {
    hide FrameAll;
    PacketsOfProxy(ps);
    var log' := s'.world.clientLog;
    forall i | |s.world.clientLog| <= i < |log'| ensures log'[i] in AsProxy(ps) {
      var j :| 0 <= j < |ps| && ps[j] == log'[i].packet;
      assert AsProxy(ps)[j] == log'[i];
    }
  }

  lemma SwitchGives(env: Env, s: State, target: Bytes, connect: Connect)
    ensures ClientGets(env, s, Switch(env, s, target, connect).0, AsProxy(SwitchPackets(env, s, target, connect)))
  {
    hide FrameAll, Packets, AsProxy, Prepare, TeardownPackets, SendAll, Chat, Send, SendClient, Sends;
    if target !in env.servers {
      var p := Chat(env, ServerNotFound(target));
      SendOne(env, s, p);
      SendsGives(env, s, Send(env, s, p), [p]);
      assert Send(env, s, p) == SendClient(env, s, p, FromProxy).0 by { SendUnfolds(env, s, p); }
    } else if connect.Refused? {
      var p := Chat(env, ConnectFailed(target));
      SendOne(env, s, p);
      SendsGives(env, s, Send(env, s, p), [p]);
    } else {
      var h := HandshakeWith(env, s, target, connect);
      if h.finished {
        var s0 := s.(cache := h.cache, backend := None);
        TeardownDependsOn(env, s, s0);
        TeardownSends(env, s0);
        SendsGives(env, s0.(openContainer := None, shadow := NOTHING), Teardown(env, s0), TeardownPackets(env, s0));
      } else {
        var s0 := s.(cache := h.cache, world := s.world.(aborted := s.world.aborted + [h.conn]));
        var p := Chat(env, ConnectFailed(target));
        SendOne(env, s0, p);
        SendsGives(env, s0, Send(env, s0, p), [p]);
      }
    }
  }

  lemma SendUnfolds(env: Env, s: State, p: RawPacket)
    ensures Send(env, s, p) == SendClient(env, s, p, FromProxy).0
  {}

  lemma TeardownDependsOn(env: Env, s: State, s0: State)
    requires s0.shadow == s.shadow && s0.openContainer == s.openContainer && s0.world.clientWrites == s.world.clientWrites
    ensures TeardownPackets(env, s0) == TeardownPackets(env, s)
  {}
}
