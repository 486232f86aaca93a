/** The Configuration phase of a new connection: relaying both ways until both sides have finished. */
module ConfigBridge {
  import opened Wire
  import opened PluginChannel
  import opened ConfigPhase
  import Registry

  /** What the loop reacts to next, and whether the write it then makes succeeds. */
  datatype Turn =
    | FromBackend(read: Result<RawPacket>, wrote: bool)
    | FromClient(read: Result<RawPacket>, wrote: bool)
    | Shutdown(wrote: bool)

  /** How the loop was left; Waiting when the turns ran out first. */
  datatype Outcome = ToPlay | Disconnected | ShutDown | Failed | Waiting

  function BackendPackets(turns: seq<Turn>): seq<RawPacket>
  {
    if turns == [] then []
    else
      var t := turns[|turns| - 1];
      BackendPackets(turns[..|turns| - 1]) + if t.FromBackend? && t.read.Ok? then [t.read.value] else []
  }

  function ClientPackets(turns: seq<Turn>): seq<RawPacket>
  {
    if turns == [] then []
    else
      var t := turns[|turns| - 1];
      ClientPackets(turns[..|turns| - 1]) + if t.FromClient? && t.read.Ok? then [t.read.value] else []
  }

  /** What remains of a packet sequence once protected-channel packets are dropped, in order. */
  function Passed(ps: seq<RawPacket>): seq<RawPacket>
  {
    if ps == [] then []
    else
      var p := ps[|ps| - 1];
      Passed(ps[..|ps| - 1]) + if IsProtected(p) then [] else [p]
  }

  predicate HasId(ps: seq<RawPacket>, id: int)
  {
    exists i :: 0 <= i < |ps| && ps[i].id == id
  }

  lemma NoneHasId(id: int)
    ensures !HasId([], id)
  {}

  lemma EmptyCache()
    ensures Registry.After(map[], []) == map[]
  {}

  lemma HasIdAppend(ps: seq<RawPacket>, p: RawPacket, id: int)
    ensures HasId(ps + [p], id) <==> HasId(ps, id) || p.id == id
  {
    var all := ps + [p];
    if HasId(ps, id) {
      var i :| 0 <= i < |ps| && ps[i].id == id;
      assert all[i].id == id;
    }
    assert all[|ps|] == p;
    if HasId(all, id) {
      var i :| 0 <= i < |all| && all[i].id == id;
      if i < |ps| { assert ps[i].id == id; }
    }
  }

  /** What the turns taken so far make each side receive. */
  function ForClient(turns: seq<Turn>): seq<RawPacket> { Passed(BackendPackets(turns)) }

  function ForBackend(turns: seq<Turn>): seq<RawPacket> { Passed(ClientPackets(turns)) }

  lemma PassedAppend(ps: seq<RawPacket>, p: RawPacket)
    ensures Passed(ps + [p]) == Passed(ps) + if IsProtected(p) then [] else [p]
  {
    assert (ps + [p])[..|ps|] == ps;
  }

  /** One more turn adds at most the packet it read, unless that is protected. */
  lemma Advance(turns: seq<Turn>, i: nat)
    requires i < |turns|
    ensures var t := turns[i]; var passes := !t.Shutdown? && t.read.Ok? && !IsProtected(t.read.value);
            && ForClient(turns[..i + 1]) == (if t.FromBackend? && passes then ForClient(turns[..i]) + [t.read.value] else ForClient(turns[..i]))
            && ForBackend(turns[..i + 1]) == (if t.FromClient? && passes then ForBackend(turns[..i]) + [t.read.value] else ForBackend(turns[..i]))
  {
    hide IsProtected;
    var t := turns[i];
    assert turns[..i + 1][..i] == turns[..i];
    assert BackendPackets(turns[..i]) + [] == BackendPackets(turns[..i]);
    assert ClientPackets(turns[..i]) + [] == ClientPackets(turns[..i]);
    if t.FromBackend? && t.read.Ok? {
      PassedAppend(BackendPackets(turns[..i]), t.read.value);
    } else if t.FromClient? && t.read.Ok? {
      PassedAppend(ClientPackets(turns[..i]), t.read.value);
    }
  }

  lemma NothingYet(turns: seq<Turn>)
    ensures ForClient(turns[..0]) == [] && ForBackend(turns[..0]) == []
  {}

  /** The turn lets the loop go on: nothing failed and nobody asked to stop. */
  predicate Smooth(t: Turn) { !t.Shutdown? && t.read.Ok? && (IsProtected(t.read.value) || t.wrote) }

  /** Both sides have been sent FinishConfiguration in the course of these turns. */
  predicate BothFinished(turns: seq<Turn>, version: int)
  {
    HasId(ForClient(turns), FinishId(version)) && HasId(ForBackend(turns), FinishId(version))
  }

  lemma {:induction false} PassedIsUnprotected(ps: seq<RawPacket>)
    ensures forall p :: p in Passed(ps) ==> !NamesChannel(p.payload)
  {
    hide IsProtected, NamesChannel;
    if ps != [] {
      PassedIsUnprotected(ps[..|ps| - 1]);
      ProtectedIff(ps[|ps| - 1]);
    }
  }

  /** Nothing that begins with a protected channel name is ever meant to be passed on. */
  lemma NothingProtectedPasses(turns: seq<Turn>)
    ensures forall p :: p in ForClient(turns) || p in ForBackend(turns) ==> !NamesChannel(p.payload)
  {
    hide Passed, NamesChannel;
    PassedIsUnprotected(BackendPackets(turns));
    PassedIsUnprotected(ClientPackets(turns));
  }

  /**
   * The bridging loop. For every interleaving of the two sides:
   * what each side was sent is exactly what the other side sent minus protected-channel packets, in
   * order, also when the loop fails (then up to the turn that failed, whose packet is still cached);
   * the loop leaves for Play exactly when FinishConfiguration has been forwarded both ways and no backend
   * disconnect was, at the first turn at which that is so; and the registry cache is what the forwarded
   * packets make it. Every turn but the last went smoothly, and no packet on a protected channel passes.
   */
  method Bridge(version: int, turns: seq<Turn>, notice: RawPacket)
    returns (outcome: Outcome, used: nat, toClient: seq<RawPacket>, toBackend: seq<RawPacket>, cache: Registry.Cache)
    ensures used <= |turns|
    ensures forall i :: 0 <= i < used - 1 ==> Smooth(turns[i])
    ensures forall n :: 0 <= n < used ==> !BothFinished(turns[..n], version)
    ensures forall p :: p in toBackend || (p in toClient && p != notice) ==> !NamesChannel(p.payload)
    ensures outcome in {ToPlay, Disconnected, Waiting} && used > 0 ==> Smooth(turns[used - 1])
    ensures outcome in {ToPlay, Disconnected, Waiting} ==>
              && toClient == ForClient(turns[..used])
              && toBackend == ForBackend(turns[..used])
              && cache == Registry.After(map[], toClient)
    ensures outcome == ToPlay ==>
              HasId(toClient, FinishId(version)) && HasId(toBackend, FinishId(version)) && !HasId(toClient, DisconnectId(version))
    ensures outcome == Waiting ==>
              used == |turns| && !(HasId(toClient, FinishId(version)) && HasId(toBackend, FinishId(version)))
    ensures outcome == Disconnected ==>
              && toClient != [] && toClient[|toClient| - 1].id == DisconnectId(version)
              && !HasId(toClient[..|toClient| - 1], DisconnectId(version))
    ensures outcome == ShutDown ==>
              && 0 < used && turns[used - 1].Shutdown? && toBackend == ForBackend(turns[..used])
              && toClient == ForClient(turns[..used]) + (if turns[used - 1].wrote then [notice] else [])
    ensures outcome == Failed ==>
              && 0 < used && !turns[used - 1].Shutdown? && (turns[used - 1].read.Err? || !turns[used - 1].wrote)
              && toClient == ForClient(turns[..used - 1]) && toBackend == ForBackend(turns[..used - 1])
              && cache == Registry.After(map[], ForClient(turns[..used]))
  {
    hide ForClient, ForBackend, NamesChannel, HasId, BothFinished, Smooth, Registry.After;
    outcome, used, toClient, toBackend, cache := BridgeLoop(version, turns, notice);
    NothingProtectedPasses(turns[..used]);
    if outcome == Failed {
      NothingProtectedPasses(turns[..used - 1]);
    }
  }

  /** The loop itself. */
  method BridgeLoop(version: int, turns: seq<Turn>, notice: RawPacket)
    returns (outcome: Outcome, used: nat, toClient: seq<RawPacket>, toBackend: seq<RawPacket>, cache: Registry.Cache)
    ensures used <= |turns|
    ensures forall i :: 0 <= i < used - 1 ==> Smooth(turns[i])
    ensures forall n :: 0 <= n < used ==> !BothFinished(turns[..n], version)
    ensures outcome in {ToPlay, Disconnected, Waiting} && used > 0 ==> Smooth(turns[used - 1])
    ensures outcome in {ToPlay, Disconnected, Waiting} ==>
              && toClient == ForClient(turns[..used])
              && toBackend == ForBackend(turns[..used])
              && cache == Registry.After(map[], toClient)
    ensures outcome == ToPlay ==>
              HasId(toClient, FinishId(version)) && HasId(toBackend, FinishId(version)) && !HasId(toClient, DisconnectId(version))
    ensures outcome == Waiting ==>
              used == |turns| && !(HasId(toClient, FinishId(version)) && HasId(toBackend, FinishId(version)))
    ensures outcome == Disconnected ==>
              && toClient != [] && toClient[|toClient| - 1].id == DisconnectId(version)
              && !HasId(toClient[..|toClient| - 1], DisconnectId(version))
    ensures outcome == ShutDown ==>
              && 0 < used && turns[used - 1].Shutdown? && toBackend == ForBackend(turns[..used])
              && toClient == ForClient(turns[..used]) + (if turns[used - 1].wrote then [notice] else [])
    ensures outcome == Failed ==>
              && 0 < used && !turns[used - 1].Shutdown? && (turns[used - 1].read.Err? || !turns[used - 1].wrote)
              && toClient == ForClient(turns[..used - 1]) && toBackend == ForBackend(turns[..used - 1])
              && cache == Registry.After(map[], ForClient(turns[..used]))
  {
    hide IsProtected, Registry.Step, Registry.After, ForClient, ForBackend, HasId;
    NothingYet(turns);
    NoneHasId(FinishId(version));
    NoneHasId(DisconnectId(version));
    assert map[] == Registry.After(map[], []) by { EmptyCache(); }
    toClient, toBackend, cache, used := [], [], map[], 0;
    var clientFinished, backendFinished := false, false;
    while !clientFinished || !backendFinished
      invariant used <= |turns|
      invariant toClient == ForClient(turns[..used])
      invariant toBackend == ForBackend(turns[..used])
      invariant cache == Registry.After(map[], toClient)
      invariant backendFinished == HasId(toClient, FinishId(version)) && clientFinished == HasId(toBackend, FinishId(version))
      invariant !HasId(toClient, DisconnectId(version))
      invariant forall i :: 0 <= i < used ==> Smooth(turns[i])
      invariant forall n :: 0 <= n < used ==> !BothFinished(turns[..n], version)
      decreases |turns| - used
    {
      if used == |turns| {
        return Waiting, used, toClient, toBackend, cache;
      }
      var turn := turns[used];
      Advance(turns, used);
      used := used + 1;
      match turn {
        case FromBackend(read, wrote) =>
          if read.Err? {
            return Failed, used, toClient, toBackend, cache;
          }
          var pkt := read.value;
          if IsProtected(pkt) {
            continue;
          }
          HasIdAppend(toClient, pkt, FinishId(version));
          HasIdAppend(toClient, pkt, DisconnectId(version));
          Registry.AfterAppend(map[], toClient, pkt);
          cache := Registry.Step(cache, pkt);
          if pkt.id == FinishId(version) {
            backendFinished := true;
          }
          if !wrote {
            return Failed, used, toClient, toBackend, cache;
          }
          toClient := toClient + [pkt];
          if pkt.id == DisconnectId(version) {
            return Disconnected, used, toClient, toBackend, cache;
          }
        case FromClient(read, wrote) =>
          if read.Err? {
            return Failed, used, toClient, toBackend, cache;
          }
          var pkt := read.value;
          if IsProtected(pkt) {
            continue;
          }
          HasIdAppend(toBackend, pkt, FinishId(version));
          if pkt.id == FinishId(version) {
            clientFinished := true;
          }
          if !wrote {
            return Failed, used, toClient, toBackend, cache;
          }
          toBackend := toBackend + [pkt];
        case Shutdown(wrote) =>
          toClient := toClient + if wrote then [notice] else [];
          return ShutDown, used, toClient, toBackend, cache;
      }
    }
    outcome := ToPlay;
  }
}
