/** A session whose client is written to through the encrypting stream, from the first frame to the screen. */
module ClientStream {
  import opened Wire
  import opened Codec
  import opened Cfb8
  import opened EncryptedStreams
  import opened Display
  import opened Routing
  import opened Transfers
  import opened Sessions
  import opened Runs
  import opened SessionTheorems
  import Relaying
  import opened PlayStateMachines
  import Registry

  // ----- Writing -----

  /** Behind the plaintext `before`, the first `n` packets of the log are on the wire, encrypted, and nothing else. */
  ghost predicate Carries(stream: EncryptedStream, z: Zlib, before: Bytes, log: seq<Sent>, n: nat, threshold: Option<nat>)
    reads stream, stream.inner
  {
    && stream.Valid() && !stream.poisoned && n <= |log|
    && stream.accepted == before + FrameAll(z, Packets(log[..n]), threshold)
    && stream.inner.taken == stream.preamble + Encrypt(stream.e, stream.secret, stream.accepted)
  }

  /** Behind the plaintext `before`, part of the frames of the log are on the wire. */
  ghost predicate CarriesPart(stream: EncryptedStream, z: Zlib, before: Bytes, log: seq<Sent>, threshold: Option<nat>)
    reads stream, stream.inner
  {
    stream.Valid() && (!stream.poisoned ==> stream.accepted <= before + FrameAll(z, Packets(log), threshold))
  }

  lemma OneMore(z: Zlib, log: seq<Sent>, n: nat, threshold: Option<nat>)
    requires n < |log|
    ensures FrameAll(z, Packets(log[..n + 1]), threshold) == FrameAll(z, Packets(log[..n]), threshold) + Frame(z, log[n].packet, threshold)
  {
    hide Frame;
    assert log[..n + 1][..n] == log[..n];
    assert Packets(log[..n + 1])[..n] == Packets(log[..n]);
  }

  lemma {:induction false} FramesOfPrefix(z: Zlib, log: seq<Sent>, n: nat, threshold: Option<nat>)
    requires n <= |log|
    ensures FrameAll(z, Packets(log[..n]), threshold) <= FrameAll(z, Packets(log), threshold)
    decreases |log| - n
  {
    hide Frame, FrameAll, Packets;
    if n == |log| {
      assert log[..n] == log;
    } else {
      OneMore(z, log, n, threshold);
      FramesOfPrefix(z, log, n + 1, threshold);
    }
  }

  /** How often the inner stream has to be ready for the packets behind the first `n`: once per byte and once per flush. */
  ghost function Cost(z: Zlib, log: seq<Sent>, n: nat, threshold: Option<nat>): int
    requires n <= |log|
  {
    |FrameAll(z, Packets(log), threshold)| - |FrameAll(z, Packets(log[..n]), threshold)| + |log| - n
  }

  lemma CostOfOne(z: Zlib, log: seq<Sent>, n: nat, threshold: Option<nat>)
    requires n < |log|
    ensures Cost(z, log, n, threshold) == Cost(z, log, n + 1, threshold) + |Frame(z, log[n].packet, threshold)| + 1
    ensures Cost(z, log, n + 1, threshold) >= 0
  {
    hide FrameAll, Frame, Packets;
    OneMore(z, log, n, threshold);
    FramesOfPrefix(z, log, n + 1, threshold);
  }

  /** Nothing is buffered when everything accepted is on the wire. */
  lemma CarriesWithoutBacklog(stream: EncryptedStream, z: Zlib, before: Bytes, log: seq<Sent>, n: nat, threshold: Option<nat>)
    requires Carries(stream, z, before, log, n, threshold)
    ensures stream.Backlog() == 0
  {
    hide FrameAll, Packets, Encrypt, Decrypt, After;
    assert |stream.inner.taken + stream.writeBuf[stream.writeCursor..]| == |stream.inner.taken|;
  }

  /** `write_packet_with_compression` on the stream, for every packet of the log behind the first `from`. */
  method Transmit(stream: EncryptedStream, z: Zlib, ghost before: Bytes, log: seq<Sent>, from: nat, threshold: Option<nat>) returns (r: Await)
    requires Carries(stream, z, before, log, from, threshold)
    modifies stream, stream.inner
    ensures r.Done? ==> Carries(stream, z, before, log, |log|, threshold)
    ensures CarriesPart(stream, z, before, log, threshold) && old(stream.inner.taken) <= stream.inner.taken
    ensures Helpful(old(stream.inner.script)) && Readies(old(stream.inner.script)) >= Cost(z, log, from, threshold) ==>
              && r.Done? && Helpful(stream.inner.script)
              && Readies(stream.inner.script) >= Readies(old(stream.inner.script)) - Cost(z, log, from, threshold)
  {
    hide FrameAll, Frame, Packets, Encrypt, Decrypt, After, Helpful, Readies, Cost, Carries;
    CarriesUnfolds(stream, z, before, log, from, threshold);
    var n := from;
    ghost var ready := Helpful(stream.inner.script) && Readies(stream.inner.script) >= Cost(z, log, from, threshold);
    while n < |log|
      invariant from <= n <= |log| && Carries(stream, z, before, log, n, threshold) && old(stream.inner.taken) <= stream.inner.taken
      invariant ready ==>
                  && Helpful(stream.inner.script)
                  && Readies(stream.inner.script) - Cost(z, log, n, threshold)
                     >= Readies(old(stream.inner.script)) - Cost(z, log, from, threshold)
    {
      CostOfOne(z, log, n, threshold);
      CarriesWithoutBacklog(stream, z, before, log, n, threshold);
      CarriesUnfolds(stream, z, before, log, n, threshold);
      var frame := EncodePacket(z, log[n].packet, threshold);
      OneMore(z, log, n, threshold);
      FramesOfPrefix(z, log, n + 1, threshold);
      Associative(before, FrameAll(z, Packets(log[..n]), threshold), frame);
      r := stream.WriteFrame(frame);
      if !r.Done? {
        return;
      }
      n := n + 1;
      CarriesFolds(stream, z, before, log, n, threshold);
      CarriesWithoutBacklog(stream, z, before, log, n, threshold);
    }
    FramesOfPrefix(z, log, n, threshold);
    CarriesUnfolds(stream, z, before, log, n, threshold);
    assert Cost(z, log, n, threshold) == 0 by { NoCost(z, log, threshold); }
    r := Done;
  }

  lemma NoCost(z: Zlib, log: seq<Sent>, threshold: Option<nat>)
    ensures Cost(z, log, |log|, threshold) == 0
  {
    assert log[..|log|] == log;
  }

  lemma CarriesUnfolds(stream: EncryptedStream, z: Zlib, before: Bytes, log: seq<Sent>, n: nat, threshold: Option<nat>)
    requires Carries(stream, z, before, log, n, threshold)
    ensures stream.Valid() && !stream.poisoned && n <= |log| && stream.accepted == before + FrameAll(z, Packets(log[..n]), threshold)
  {}

  lemma CarriesFolds(stream: EncryptedStream, z: Zlib, before: Bytes, log: seq<Sent>, n: nat, threshold: Option<nat>)
    requires stream.Valid() && !stream.poisoned && n <= |log| && stream.accepted == before + FrameAll(z, Packets(log[..n]), threshold)
    requires stream.inner.taken == stream.preamble + Encrypt(stream.e, stream.secret, stream.accepted)
    ensures Carries(stream, z, before, log, n, threshold)
  {}

  // ----- Reading -----

  /** The client's view of the wire: what it decrypts of the bytes behind the preamble. */
  ghost function Decrypted(stream: EncryptedStream): Bytes
    reads stream, stream.inner
    requires stream.Valid() && |stream.preamble| <= |stream.inner.taken|
  {
    Decrypt(stream.e, stream.secret, stream.inner.taken[|stream.preamble|..])
  }

  lemma WireDecrypts(stream: EncryptedStream, z: Zlib, before: Bytes, log: seq<Sent>, threshold: Option<nat>)
    requires Carries(stream, z, before, log, |log|, threshold)
    ensures stream.Valid() && |stream.preamble| <= |stream.inner.taken| && Decrypted(stream) == before + FrameAll(z, Packets(log), threshold)
  {
    hide FrameAll, Packets, Encrypt, Decrypt, After;
    assert log[..|log|] == log;
    assert stream.inner.taken[|stream.preamble|..] == Encrypt(stream.e, stream.secret, stream.accepted);
    DecryptUndoesEncrypt(stream.e, stream.secret, stream.accepted);
  }

  /** However much the inner stream has taken, it decrypts to a beginning of what was accepted. */
  lemma PartDecrypts(stream: EncryptedStream, z: Zlib, before: Bytes, log: seq<Sent>, threshold: Option<nat>)
    requires CarriesPart(stream, z, before, log, threshold) && !stream.poisoned && stream.preamble <= stream.inner.taken
    ensures Decrypted(stream) <= before + FrameAll(z, Packets(log), threshold)
  {
    hide FrameAll, Packets, Encrypt, Decrypt, After;
    var ct, n := Encrypt(stream.e, stream.secret, stream.accepted), |stream.preamble|;
    var wire := stream.inner.taken[n..];
    assert (stream.preamble + ct)[n..] == ct;
    assert wire <= ct by {
      assert wire + stream.writeBuf[stream.writeCursor..] == (stream.inner.taken + stream.writeBuf[stream.writeCursor..])[n..];
    }
    PrefixDelivered(stream.e, stream.secret, stream.accepted, wire);
  }

  // ----- The session -----

  lemma RunNothing(env: Env, s: State)
    ensures Run(env, s, []) == s
  {}

  lemma RunOneMore(env: Env, s: State, events: seq<Event>, n: nat)
    requires n < |events|
    ensures Run(env, s, events[..n + 1]) == Step(env, Run(env, s, events[..n]), events[n])
  {
    hide Step;
    assert events[..n + 1][..n] == events[..n];
  }

  /** What was sent stays sent. */
  lemma LogGrows(env: Env, server: Bytes, client: Option<nat>, backend: Option<nat>, cache: Registry.Cache, events: seq<Event>, n: nat)
    requires env.Lawful() && server in env.servers && n < |events|
    ensures var s := Start(server, client, backend, cache);
            Run(env, s, events[..n]).world.clientLog <= Run(env, s, events[..n + 1]).world.clientLog
  {
    hide Run, Start, Step, Inv, Relaying.Passing, Relaying.Arrival, Relaying.Gains;
    var s := Start(server, client, backend, cache);
    StartHolds(env, server, client, backend, cache);
    RunKeepsInv(env, client, s, events[..n]);
    Relaying.InvUnfolds(env, client, Run(env, s, events[..n]));
    Relaying.StepEffect(env, Run(env, s, events[..n]), events[n]);
    RunOneMore(env, s, events, n);
  }

  lemma {:induction false} LogGrowsTo(env: Env, server: Bytes, client: Option<nat>, backend: Option<nat>, cache: Registry.Cache,
                                     events: seq<Event>, n: nat)
    requires env.Lawful() && server in env.servers && n <= |events|
    ensures var s := Start(server, client, backend, cache);
            Run(env, s, events[..n]).world.clientLog <= Run(env, s, events).world.clientLog
    decreases |events| - n
  {
    hide Run, Start;
    if n == |events| {
      assert events[..n] == events;
    } else {
      LogGrows(env, server, client, backend, cache, events, n);
      LogGrowsTo(env, server, client, backend, cache, events, n + 1);
    }
  }

  /** A turn's share of what a whole run costs. */
  lemma CostSoFar(z: Zlib, last: seq<Sent>, log: seq<Sent>, all: seq<Sent>, threshold: Option<nat>)
    requires last <= log <= all
    ensures Cost(z, last, 0, threshold) + Cost(z, log, |last|, threshold) == Cost(z, log, 0, threshold) <= Cost(z, all, 0, threshold)
  {
    hide Packets, Frame;
    assert log[..|last|] == last && all[..|log|] == log;
    FramesOfPrefix(z, all, |log|, threshold);
    assert last[..0] == [] && log[..0] == [] && all[..0] == [];
  }

  lemma ThresholdStays(env: Env, server: Bytes, client: Option<nat>, backend: Option<nat>, cache: Registry.Cache, events: seq<Event>)
    requires env.Lawful() && server in env.servers
    ensures Run(env, Start(server, client, backend, cache), events).clientThreshold == client
  {
    hide Run, Start, Mirrors, Placed, LoginsKept, FrameAll, Packets, Whole;
    StartHolds(env, server, client, backend, cache);
    RunKeepsInv(env, client, Start(server, client, backend, cache), events);
  }

  /** What the stream carries does not change while the log grows. */
  lemma StillCarries(stream: EncryptedStream, z: Zlib, before: Bytes, log: seq<Sent>, log': seq<Sent>, threshold: Option<nat>)
    requires Carries(stream, z, before, log, |log|, threshold) && log <= log'
    ensures Carries(stream, z, before, log', |log|, threshold)
  {
    hide FrameAll, Packets, Encrypt, Decrypt, After;
    assert log[..|log|] == log && log'[..|log|] == log;
  }

  /** A stream on which everything accepted so far has been flushed carries nothing of the log yet. */
  lemma CarriesNothing(stream: EncryptedStream, z: Zlib, threshold: Option<nat>)
    requires stream.Valid() && !stream.poisoned
    requires stream.inner.taken == stream.preamble + Encrypt(stream.e, stream.secret, stream.accepted)
    ensures Carries(stream, z, stream.accepted, [], 0, threshold)
  {
    hide Encrypt, Decrypt, After;
    assert stream.accepted + [] == stream.accepted;
  }

  /** What a stream that carries the whole log lets its client see. */
  lemma ClientSees(stream: EncryptedStream, env: Env, before: Bytes, s: State, threshold: Option<nat>)
    requires env.Lawful() && Carries(stream, env.zlib, before, s.world.clientLog, |s.world.clientLog|, threshold)
    requires AllFit(env.zlib, Packets(s.world.clientLog), MAX_PACKET, threshold)
    ensures stream.Valid() && |stream.preamble| <= |stream.inner.taken| && before <= Decrypted(stream)
    ensures ReadAll(env.zlib, Decrypted(stream)[|before|..], MAX_PACKET, threshold) == Ok(Packets(s.world.clientLog))
  {
    hide FrameAll, Packets, Decrypted, ReadAll, AllFit, Carries;
    WireDecrypts(stream, env.zlib, before, s.world.clientLog, threshold);
    StreamRoundTrip(env.zlib, Packets(s.world.clientLog), MAX_PACKET, threshold);
    assert Decrypted(stream)[|before|..] == FrameAll(env.zlib, Packets(s.world.clientLog), threshold);
  }

  /**
   * A session whose client writes are awaited `write_all` and `flush` calls on an encrypting stream, under
   * any pattern of partial writes, stalls and failures. The stream comes with whatever the Login and
   * Configuration phases wrote and flushed. After every turn that was written in full, the bytes the
   * inner stream took decrypt to that, followed by frames that read back as exactly the packets sent to
   * the client, and what these packets display is what the proxy tracks. When a write fails or stalls,
   * what was taken is a beginning of those bytes. And every turn is written in full if the inner stream does
   * not fail and is ready once for every byte and every flush of the run.
   *
   * The outcome of a write is chosen twice: by `env` for the turn, and by the inner stream afterwards. The
   * session therefore ends at the first write the inner stream does not complete, also where the code
   * would ignore the failure of a teardown packet and go on; nothing is claimed from there on.
   */
  method EncryptedSession(env: Env, server: Bytes, threshold: Option<nat>, cache: Registry.Cache, events: seq<Event>, stream: EncryptedStream)
    returns (m: PlayStateMachine, r: Await, turns: nat)
    requires env.Lawful() && server in env.servers
    requires stream.Valid() && !stream.poisoned
    requires stream.inner.taken == stream.preamble + Encrypt(stream.e, stream.secret, stream.accepted)
    modifies stream, stream.inner
    ensures fresh(m) && turns <= |events| && m.Abs() == Run(env, Start(server, threshold, threshold, cache), events[..turns])
    ensures r.Done? ==> turns == |events|
    ensures stream.Valid() && stream.preamble <= stream.inner.taken
    ensures !stream.poisoned ==>
              Decrypted(stream) <= old(stream.accepted) + FrameAll(env.zlib, Packets(m.world.clientLog), threshold)
    ensures r.Done? ==>
              && !stream.poisoned
              && Decrypted(stream) == old(stream.accepted) + FrameAll(env.zlib, Packets(m.world.clientLog), threshold)
    ensures r.Done? && AllFit(env.zlib, Packets(m.world.clientLog), MAX_PACKET, threshold) ==>
              var read := ReadAll(env.zlib, Decrypted(stream)[|old(stream.accepted)|..], MAX_PACKET, threshold);
              && read == Ok(Packets(m.world.clientLog))
              && (m.world.clientIntact && SoundsAreUnmistakable(env.version) ==> m.Abs().shadow == Replay(read.value, env.version))
    ensures var all := Run(env, Start(server, threshold, threshold, cache), events).world.clientLog;
            Helpful(old(stream.inner.script)) && Readies(old(stream.inner.script)) >= Cost(env.zlib, all, 0, threshold) ==> r.Done?
  {
    hide FrameAll, Packets, Encrypt, Decrypt, After, Run, Start, Step, ReadAll, AllFit, Replay, Decrypted, SoundsAreUnmistakable,
         Helpful, Readies, Cost, Carries, CarriesPart;
    m := new PlayStateMachine(env, server, threshold, threshold, cache);
    ghost var start, written := Start(server, threshold, threshold, cache), stream.accepted;
    assert m.world.clientLog == [] by { StartLog(server, threshold, threshold, cache); }
    CarriesNothing(stream, env.zlib, threshold);
    RunNothing(env, start);
    assert events[..0] == [];
    turns, r := 0, Done;
    ghost var all := Run(env, start, events).world.clientLog;
    ghost var ready := Helpful(stream.inner.script) && Readies(stream.inner.script) >= Cost(env.zlib, all, 0, threshold);
    NoCost(env.zlib, [], threshold);
    while turns < |events|
      invariant turns <= |events| && m.env == env && m.Abs() == Run(env, start, events[..turns])
      invariant stream.preamble <= stream.inner.taken
      invariant Carries(stream, env.zlib, written, m.world.clientLog, |m.world.clientLog|, threshold)
      invariant ready ==>
                  && Helpful(stream.inner.script)
                  && Readies(stream.inner.script) + Cost(env.zlib, m.world.clientLog, 0, threshold) >= Cost(env.zlib, all, 0, threshold)
    {
      var sent := |m.world.clientLog|;
      ghost var last := m.Abs();
      m.Turn(events[turns]);
      RunOneMore(env, start, events, turns);
      LogGrows(env, server, threshold, threshold, cache, events, turns);
      StillCarries(stream, env.zlib, written, last.world.clientLog, m.world.clientLog, threshold);
      turns := turns + 1;
      ThresholdStays(env, server, threshold, threshold, cache, events[..turns]);
      LogGrowsTo(env, server, threshold, threshold, cache, events, turns);
      CostSoFar(env.zlib, last.world.clientLog, m.world.clientLog, all, threshold);
      r := Transmit(stream, env.zlib, written, m.world.clientLog, sent, m.clientThreshold);
      if !r.Done? {
        PartUnfolds(stream, env.zlib, written, m.world.clientLog, threshold);
        if !stream.poisoned {
          PartDecrypts(stream, env.zlib, written, m.world.clientLog, threshold);
        }
        return;
      }
    }
    r := Done;
    CarriesUnfolds(stream, env.zlib, written, m.world.clientLog, |m.world.clientLog|, threshold);
    WireDecrypts(stream, env.zlib, written, m.world.clientLog, threshold);
    assert events[..turns] == events;
    ShadowMirrorsClient(env, server, threshold, threshold, cache, events);
    if AllFit(env.zlib, Packets(m.world.clientLog), MAX_PACKET, threshold) {
      ClientSees(stream, env, written, m.Abs(), threshold);
    }
  }

  lemma PartUnfolds(stream: EncryptedStream, z: Zlib, before: Bytes, log: seq<Sent>, threshold: Option<nat>)
    requires CarriesPart(stream, z, before, log, threshold)
    ensures stream.Valid()
  {}

  lemma StartLog(server: Bytes, client: Option<nat>, backend: Option<nat>, cache: Registry.Cache)
    ensures Start(server, client, backend, cache).world.clientLog == []
  {}
}
