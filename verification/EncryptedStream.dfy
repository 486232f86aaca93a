/** The encrypting wrapper around a stream that may take bytes partially, stall, or fail. */
module EncryptedStreams {
  import opened Wire
  import opened Cfb8

  const CHUNK := 64 * 1024

  datatype Poll = Ready(n: nat) | Failed | Pending

  // ----- Scripted answers -----

  /** The next answer of a script, and the script after it; an exhausted script stalls. */
  function Next(script: seq<Poll>): (Poll, seq<Poll>)
  {
    if script == [] then (Pending, []) else (script[0], script[1..])
  }

  /** What draining `n` buffered bytes comes to: the result, the answers left and the bytes left. */
  function Drain(script: seq<Poll>, n: nat): (r: (Poll, seq<Poll>, nat))
    ensures |r.1| <= |script| && r.2 <= n && (r.0.Ready? <==> r.2 == 0)
    decreases |script|
  {
    if n == 0 then (Ready(0), script, 0)
    else
      var (answer, rest) := Next(script);
      match answer
      case Ready(m) => if m == 0 then (Failed, rest, n) else Drain(rest, n - Min(m, n))
      case Failed => (Failed, rest, n)
      case Pending => (Pending, rest, n)
  }

  /** Draining fails only on an answer that is a failure or takes nothing, and stops right there. */
  lemma {:induction false} DrainFailsOn(script: seq<Poll>, n: nat) returns (i: nat)
    requires Drain(script, n).0.Failed?
    ensures i < |script| && (script[i].Failed? || script[i] == Ready(0)) && Drain(script, n).1 == script[i + 1..]
    decreases |script|
  {
    if script[0].Ready? && script[0].n > 0 {
      i := DrainFailsOn(script[1..], n - Min(script[0].n, n));
      i := i + 1;
    } else {
      i := 0;
    }
  }

  /** The stream never fails and, when ready, takes at least one byte. */
  ghost predicate Helpful(script: seq<Poll>)
  {
    forall i :: 0 <= i < |script| ==> script[i].Pending? || (script[i].Ready? && script[i].n >= 1)
  }

  /** How often the stream will be ready. */
  function Readies(script: seq<Poll>): nat
  {
    if script == [] then 0 else (if script[0].Ready? then 1 else 0) + Readies(script[1..])
  }

  lemma NextHelps(script: seq<Poll>)
    requires Helpful(script)
    ensures var (answer, rest) := Next(script);
            && Helpful(rest) && !answer.Failed?
            && (answer.Ready? ==> answer.n >= 1 && Readies(rest) + 1 == Readies(script))
            && (answer.Pending? ==> Readies(rest) == Readies(script))
            && (Readies(script) > 0 ==> |rest| < |script|)
  {}

  /** Each time a helpful stream is ready, draining gains at least a byte. */
  lemma {:induction false} DrainHelps(script: seq<Poll>, n: nat)
    requires Helpful(script)
    ensures var (r, rest, left) := Drain(script, n);
            Helpful(rest) && !r.Failed? && Readies(rest) + n - left >= Readies(script)
    decreases |script|
  {
    if n > 0 {
      NextHelps(script);
      var (answer, rest) := Next(script);
      if answer.Ready? {
        DrainHelps(rest, n - Min(answer.n, n));
      }
    }
  }

  /**
   * The inner stream. Its future answers are an arbitrary script, so a statement about all scripts
   * is a statement about every pattern of partial writes, stalls and failures.
   */
  class Pipe {
    var taken: Bytes
    var script: seq<Poll>

    constructor (script: seq<Poll>)
      ensures taken == [] && this.script == script
    {
      this.taken := [];
      this.script := script;
    }

    /** Takes a prefix of `buf` of the script's choosing; an exhausted script stalls. */
    method PollWrite(buf: Bytes) returns (r: Poll)
      modifies this
      ensures var (answer, rest) := Next(old(script));
              script == rest && r == if answer.Ready? then Ready(Min(answer.n, |buf|)) else answer
      ensures taken == old(taken) + if r.Ready? then buf[..r.n] else []
    {
      r := Answer();
      if r.Ready? {
        r := Ready(Min(r.n, |buf|));
        taken := taken + buf[..r.n];
      }
    }

    /** The next scripted answer: also what `poll_flush` and `poll_shutdown` return. */
    method Answer() returns (r: Poll)
      modifies this`script
      ensures (r, script) == Next(old(script))
    {
      if script == [] {
        return Pending;
      }
      r := script[0];
      script := script[1..];
    }
  }

  /** One poll of a write of `m` bytes to a helpful stream with `n` bytes of backlog. */
  lemma WriteHelps(script: seq<Poll>, n: nat, m: nat)
    requires m > 0
    ensures |Drain(script, n).1| <= |script| && |Next(Drain(script, n).1).1| <= |script|
    ensures Drain(script, n).0.Pending? && script != [] ==> |Drain(script, n).1| < |script|
    ensures Helpful(script) ==>
              var (drained, rest, left) := Drain(script, n); var (answer, more) := Next(rest); var chunk := Min(m, CHUNK);
              && Helpful(rest) && !drained.Failed? && Readies(rest) - left >= Readies(script) - n
              && Helpful(more) && !answer.Failed?
              && (drained.Ready? ==>
                    Readies(more) - (chunk - if answer.Ready? then Min(answer.n, chunk) else 0) >= Readies(script) - n - chunk)
              && (script == [] ==> Readies(script) == 0)
  {
    hide Helpful, Readies;
    DrainShrinks(script, n);
    if Helpful(script) {
      DrainHelps(script, n);
      NextHelps(Drain(script, n).1);
      assert script == [] ==> Readies(script) == 0 by { NoReadies(); }
    }
  }

  lemma NoReadies()
    ensures Readies([]) == 0
  {}

  lemma {:induction false} DrainShrinks(script: seq<Poll>, n: nat)
    ensures Drain(script, n).0.Pending? && script != [] ==> |Drain(script, n).1| < |script|
    decreases |script|
  {
    if n > 0 && script != [] && script[0].Ready? && script[0].n > 0 {
      DrainShrinks(script[1..], n - Min(script[0].n, n));
    }
  }

  /** One poll of a flush. */
  lemma FlushHelps(script: seq<Poll>, n: nat)
    ensures var (drained, rest, left) := Drain(script, n); var (r, more) := if drained.Ready? then Next(rest) else (drained, rest);
            && |more| <= |script| && (r.Pending? && script != [] ==> |more| < |script|)
            && (Helpful(script) ==>
                  && Helpful(more) && !r.Failed? && (script == [] ==> Readies(script) == 0)
                  && Readies(more) - left >= Readies(script) - n - if r.Ready? then 1 else 0)
  {
    hide Helpful, Readies;
    DrainShrinks(script, n);
    if Helpful(script) {
      DrainHelps(script, n);
      NextHelps(Drain(script, n).1);
      assert script == [] ==> Readies(script) == 0 by { NoReadies(); }
    }
  }

  /** How an awaited write ended: Stuck when the inner stream never answers again. */
  datatype Await = Done | Broken | Stuck

  /** What the inner stream hands to a read. */
  datatype Arrival = Arrived(bytes: Bytes) | ReadFailed | NothingYet

  lemma SplitAt(before: Bytes, c: Bytes, n: nat)
    requires n <= |c|
    ensures (before + c[..n]) + c[n..] == before + c
    ensures n == 0 ==> before + c[..n] == before
    ensures n == |c| ==> c[n..] == []
  {}

  class EncryptedStream {
    const e: BlockByte
    const secret: Bytes
    const inner: Pipe

    var encryptor: Bytes
    var decryptor: Bytes
    var writeBuf: Bytes
    var writeCursor: nat

    /** Bytes the inner stream had taken before encryption began. */
    ghost const preamble: Bytes
    /** Plaintext reported as accepted. */
    ghost var accepted: Bytes
    /** Ciphertext received, and the plaintext handed out for it. */
    ghost var received: Bytes
    ghost var delivered: Bytes
    /** The direct inner write failed after the cipher had advanced: nothing is claimed any more. */
    ghost var poisoned: bool

    ghost predicate Valid()
      reads this, inner
    {
      && |secret| == 16
      && |encryptor| == 16 && |decryptor| == 16
      && writeCursor <= |writeBuf| <= CHUNK
      && (!poisoned ==>
            && inner.taken + writeBuf[writeCursor..] == preamble + Encrypt(e, secret, accepted)
            && encryptor == After(secret, Encrypt(e, secret, accepted)))
      && decryptor == After(secret, received)
      && delivered == Decrypt(e, secret, received)
    }

    constructor (e: BlockByte, secret: Bytes, inner: Pipe)
      requires |secret| == 16
      ensures Valid() && this.e == e && this.secret == secret && this.inner == inner && preamble == inner.taken
      ensures accepted == [] && received == [] && !poisoned
    {
      this.e, this.secret, this.inner := e, secret, inner;
      encryptor, decryptor := secret, secret;
      writeBuf, writeCursor := [], 0;
      preamble, accepted, received, delivered, poisoned := inner.taken, [], [], [], false;
    }

    /** Ciphertext bytes the inner stream has not taken yet. */
    ghost function Backlog(): nat
      reads this
      requires writeCursor <= |writeBuf|
    {
      |writeBuf| - writeCursor
    }

    /** `flush_pending_write`: drains the buffered ciphertext; Ready only once all of it is taken. */
    method FlushPending() returns (r: Poll)
      requires Valid()
      modifies this`writeBuf, this`writeCursor, inner
      ensures Valid() && old(inner.taken) <= inner.taken
      ensures if r.Ready? then writeBuf == [] && writeCursor == 0 else writeCursor < |writeBuf|
      ensures inner.taken + writeBuf[writeCursor..] == old(inner.taken + writeBuf[writeCursor..])
      ensures (r, inner.script, Backlog()) == Drain(old(inner.script), old(Backlog()))
    {
      hide Encrypt, Decrypt, After;
      while writeCursor < |writeBuf|
        invariant writeCursor <= |writeBuf| && writeBuf == old(writeBuf) && old(inner.taken) <= inner.taken
        invariant inner.taken + writeBuf[writeCursor..] == old(inner.taken + writeBuf[writeCursor..])
        invariant Drain(inner.script, Backlog()) == Drain(old(inner.script), old(Backlog()))
        decreases |writeBuf| - writeCursor
      {
        var rest := writeBuf[writeCursor..];
        ghost var before := inner.taken;
        var w := inner.PollWrite(rest);
        if !w.Ready? {
          return w;
        }
        if w.n == 0 {
          return Failed;
        }
        SplitAt(before, rest, w.n);
        assert writeBuf[writeCursor + w.n..] == rest[w.n..];
        writeCursor := writeCursor + w.n;
      }
      assert writeBuf[writeCursor..] == [];
      writeBuf := [];
      writeCursor := 0;
      r := Ready(0);
    }

    /**
     * `poll_write`. While the backlog cannot be drained, the answer is the draining's. Then a chunk is
     * accepted, unless the inner stream fails on it: that alone poisons the stream.
     */
    method PollWrite(buf: Bytes) returns (r: Poll)
      requires Valid()
      modifies this`writeBuf, this`writeCursor, this`encryptor, this`accepted, this`poisoned, inner
      ensures Valid() && old(inner.taken) <= inner.taken
      ensures var (drained, rest, left) := Drain(old(inner.script), old(Backlog()));
              if !drained.Ready? then
                r == drained && (inner.script, Backlog()) == (rest, left) && accepted == old(accepted) && poisoned == old(poisoned)
              else if buf == [] then
                r == Ready(0) && (inner.script, Backlog()) == (rest, 0) && accepted == old(accepted) && poisoned == old(poisoned)
              else
                var (answer, more) := Next(rest); var n := Min(|buf|, 65536);
                && inner.script == more
                && r == (if answer.Failed? then Failed else Ready(n))
                && accepted == (if answer.Failed? then old(accepted) else old(accepted) + buf[..n])
                && poisoned == (old(poisoned) || answer.Failed?)
                && (!answer.Failed? ==> Backlog() == n - if answer.Ready? then Min(answer.n, n) else 0)
      ensures |writeBuf| <= 65536
    {
      hide Encrypt, Decrypt, After;
      r := FlushPending();
      if !r.Ready? {
        return;
      }
      if buf == [] {
        return Ready(0);
      }
      var chunkLen := Min(|buf|, CHUNK);
      var ok := WriteChunk(buf[..chunkLen]);
      r := if ok then Ready(chunkLen) else Failed;
    }

    /** Encrypts one chunk, offers it to the inner stream and keeps what was not taken. */
    method WriteChunk(plain: Bytes) returns (ok: bool)
      requires Valid() && writeBuf == [] && |plain| <= CHUNK
      modifies this`writeBuf, this`writeCursor, this`encryptor, this`accepted, this`poisoned, inner
      ensures Valid() && old(inner.taken) <= inner.taken
      ensures var (answer, rest) := Next(old(inner.script));
              && inner.script == rest && ok == !answer.Failed? && poisoned == (old(poisoned) || answer.Failed?)
              && accepted == (if ok then old(accepted) + plain else old(accepted))
              && (ok ==> Backlog() == |plain| - if answer.Ready? then Min(answer.n, |plain|) else 0)
    {
      hide Encrypt, Decrypt, After;
      var ciphertext := Encrypt(e, encryptor, plain);
      Advance(plain);
      encryptor := After(encryptor, ciphertext);
      ghost var before := inner.taken;
      var w := inner.PollWrite(ciphertext);
      if w.Failed? {
        poisoned := true;
        return false;
      }
      var n := if w.Ready? then w.n else 0;
      SplitAt(before, ciphertext, n);
      if n < |ciphertext| {
        writeBuf, writeCursor := ciphertext, n;
      }
      accepted := accepted + plain;
      ok := true;
    }

    /** The register and the ciphertext move on together when `plain` is accepted. */
    lemma Advance(plain: Bytes)
      requires Valid() && writeBuf == []
      ensures !poisoned ==>
                var c := Encrypt(e, encryptor, plain); var all := Encrypt(e, secret, accepted + plain);
                && inner.taken + c == preamble + all
                && After(encryptor, c) == After(secret, all)
    {
      hide Encrypt, Decrypt, After;
      if !poisoned {
        var done, c := Encrypt(e, secret, accepted), Encrypt(e, encryptor, plain);
        EncryptInPieces(e, secret, accepted, plain);
        AfterPieces(secret, done, c);
        assert inner.taken == inner.taken + writeBuf[writeCursor..];
        assert (preamble + done) + c == preamble + (done + c);
      }
    }

    /** `poll_flush` and `poll_shutdown`: drain, then answer what the inner stream answers. */
    method PollFlush() returns (r: Poll)
      requires Valid()
      modifies this`writeBuf, this`writeCursor, inner
      ensures Valid() && old(inner.taken) <= inner.taken
      ensures r.Ready? && !poisoned ==> inner.taken == preamble + Encrypt(e, secret, accepted)
      ensures var (drained, rest, left) := Drain(old(inner.script), old(Backlog()));
              Backlog() == left && (r, inner.script) == if drained.Ready? then Next(rest) else (drained, rest)
    {
      hide Encrypt, Decrypt, After;
      r := FlushPending();
      if r.Ready? {
        assert inner.taken + writeBuf[writeCursor..] == inner.taken;
        r := inner.Answer();
      }
    }

    /** What was ready and not used up, over what is still to be written: it never shrinks while a helpful stream is polled. */
    ghost function Margin(): int
      reads this, inner
      requires writeCursor <= |writeBuf|
    {
      Readies(inner.script) - Backlog()
    }

    /** `write_all`, awaited: polls until every byte of `buf` is accepted. */
    method WriteAll(buf: Bytes) returns (r: Await)
      requires Valid()
      modifies this`writeBuf, this`writeCursor, this`encryptor, this`accepted, this`poisoned, inner
      ensures Valid() && (old(poisoned) ==> poisoned) && old(inner.taken) <= inner.taken
      ensures old(accepted) <= accepted <= old(accepted) + buf
      ensures r.Done? ==> accepted == old(accepted) + buf && poisoned == old(poisoned)
      ensures Helpful(old(inner.script)) && old(Margin()) >= |buf| ==>
                r.Done? && Helpful(inner.script) && Margin() >= old(Margin()) - |buf|
    {
      hide Encrypt, Decrypt, After, Helpful, Readies, Drain, Next;
      var done := 0;
      assert old(accepted) + buf[..0] == old(accepted);
      while done < |buf|
        invariant 0 <= done <= |buf| && Valid() && poisoned == old(poisoned) && old(inner.taken) <= inner.taken
        invariant accepted == old(accepted) + buf[..done]
        invariant Helpful(old(inner.script)) ==> Helpful(inner.script) && Margin() >= old(Margin()) - done
        decreases |buf| - done, |inner.script|
      {
        var stalled := inner.script == [];
        WriteHelps(inner.script, Backlog(), |buf| - done);
        var p := PollWrite(buf[done..]);
        match p {
          case Ready(n) =>
            assert buf[..done] + buf[done..][..n] == buf[..done + n];
            done := done + n;
          case Failed => return Broken;
          case Pending =>
            if stalled {
              return Stuck;
            }
        }
      }
      return Done;
    }

    /** `flush`, awaited. */
    method Flush() returns (r: Await)
      requires Valid()
      modifies this`writeBuf, this`writeCursor, inner
      ensures Valid() && old(inner.taken) <= inner.taken
      ensures r.Done? && !poisoned ==> inner.taken == preamble + Encrypt(e, secret, accepted)
      ensures Helpful(old(inner.script)) && old(Margin()) >= 1 ==> r.Done? && Helpful(inner.script) && Margin() >= old(Margin()) - 1
    {
      hide Encrypt, Decrypt, After, Helpful, Readies, Drain, Next;
      while true
        invariant Valid() && old(inner.taken) <= inner.taken
        invariant Helpful(old(inner.script)) ==> Helpful(inner.script) && Margin() >= old(Margin())
        decreases |inner.script|
      {
        var stalled := inner.script == [];
        FlushHelps(inner.script, Backlog());
        var p := PollFlush();
        if p.Ready? {
          return Done;
        }
        if p.Failed? {
          return Broken;
        }
        if stalled {
          return Stuck;
        }
      }
    }

    /**
     * `write_packet_with_compression` once the frame is encoded. When it is done, no ciphertext is left behind;
     * and it is done whenever the inner stream does not fail and is ready often enough.
     */
    method WriteFrame(frame: Bytes) returns (r: Await)
      requires Valid()
      modifies this`writeBuf, this`writeCursor, this`encryptor, this`accepted, this`poisoned, inner
      ensures Valid() && (old(poisoned) ==> poisoned) && old(inner.taken) <= inner.taken
      ensures old(accepted) <= accepted <= old(accepted) + frame
      ensures r.Done? ==> accepted == old(accepted) + frame && poisoned == old(poisoned)
      ensures r.Done? && !poisoned ==> inner.taken == preamble + Encrypt(e, secret, accepted)
      ensures Helpful(old(inner.script)) && old(Margin()) > |frame| ==>
                r.Done? && Helpful(inner.script) && Margin() >= old(Margin()) - |frame| - 1
    {
      hide Encrypt, Helpful, Readies;
      r := WriteAll(frame);
      if r.Done? {
        r := Flush();
      }
    }

    /** `poll_read`: appends what arrived to the caller's buffer and decrypts it there. */
    method PollRead(filled: Bytes, arrival: Arrival) returns (r: Poll, out: Bytes)
      requires Valid()
      modifies this`decryptor, this`received, this`delivered
      ensures Valid()
      ensures filled <= out
      ensures arrival.Arrived? ==>
                r.Ready? && received == old(received) + arrival.bytes && delivered == old(delivered) + out[|filled|..]
      ensures !arrival.Arrived? ==> !r.Ready? && out == filled && received == old(received) && delivered == old(delivered)
    {
      hide Encrypt, Decrypt, After;
      match arrival {
        case Arrived(bytes) =>
          var before := |filled|;
          var plain := Decrypt(e, decryptor, bytes);
          out := filled + plain;
          assert out[before..] == plain;
          DecryptInPieces(e, secret, received, bytes);
          AfterPieces(secret, received, bytes);
          decryptor := After(decryptor, bytes);
          received := received + bytes;
          delivered := delivered + plain;
          r := Ready(|plain|);
        case ReadFailed => r, out := Failed, filled;
        case NothingYet => r, out := Pending, filled;
      }
    }
  }

  // ----- Two endpoints sharing one secret -----

  /** One move of a conversation: the writer is polled, or the reader is offered wire bytes. */
  datatype Move = Write(buf: Bytes) | Flush | Read(size: nat) | StalledRead

  /**
   * For every schedule of polls and every chunking of reads, the plaintext delivered at the far end
   * is a prefix of the plaintext accepted, and all of it once a flush succeeded with nothing written
   * since and every wire byte has been read.
   */
  method Converse(a: EncryptedStream, b: EncryptedStream, schedule: seq<Move>) returns (flushed: bool)
    requires a.Valid() && b.Valid() && a != b && a.inner != b.inner
    requires a.e == b.e && a.secret == b.secret
    requires a.inner.taken == a.preamble && a.accepted == [] && b.received == [] && !a.poisoned
    modifies a, b, a.inner
    ensures a.Valid() && b.Valid()
    ensures !a.poisoned ==> b.delivered <= a.accepted
    ensures !a.poisoned && flushed && |a.preamble| + |b.received| == |a.inner.taken| ==> b.delivered == a.accepted
  {
    hide Encrypt, Decrypt, After;
    flushed := false;
    var position := |a.inner.taken|;
    assert a.inner.taken == a.preamble + b.received;
    for i := 0 to |schedule|
      invariant a.Valid() && b.Valid()
      invariant a.preamble + b.received <= a.inner.taken && position == |a.preamble| + |b.received|
      invariant flushed && !a.poisoned ==> a.inner.taken == a.preamble + Encrypt(a.e, a.secret, a.accepted)
    {
      match schedule[i] {
        case Write(buf) =>
          var r := a.PollWrite(buf);
          flushed := false;
        case Flush =>
          var r := a.PollFlush();
          flushed := r.Ready?;
        case Read(size) =>
          var wire := a.inner.taken;
          var chunk := wire[position..position + Min(size, |wire| - position)];
          Extend(wire, a.preamble + b.received, chunk);
          assert a.preamble + (b.received + chunk) == (a.preamble + b.received) + chunk;
          var r, out := b.PollRead([], Arrived(chunk));
          position := position + |chunk|;
        case StalledRead =>
          var r, out := b.PollRead([], NothingYet);
      }
    }
    if !a.poisoned {
      Reception(a, b);
    }
  }

  lemma Extend(wire: Bytes, seen: Bytes, chunk: Bytes)
    requires seen <= wire && chunk <= wire[|seen|..]
    ensures seen + chunk <= wire
  {}

  lemma Reception(a: EncryptedStream, b: EncryptedStream)
    requires a.Valid() && b.Valid() && !a.poisoned && a.e == b.e && a.secret == b.secret
    requires a.preamble + b.received <= a.inner.taken
    ensures b.delivered <= a.accepted
    ensures |b.received| == |a.accepted| ==> b.delivered == a.accepted
  {
    hide Encrypt, Decrypt, After;
    var ct := Encrypt(a.e, a.secret, a.accepted);
    var n, m := |a.preamble|, |b.received|;
    assert (a.preamble + ct)[n..n + m] == ct[..m];
    assert (a.preamble + b.received)[n..n + m] == b.received;
    assert b.received == ct[..m];
    PrefixDelivered(a.e, a.secret, a.accepted, b.received);
  }
}
