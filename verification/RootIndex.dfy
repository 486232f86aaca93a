/** Finding the trailing root index of a command tree by scanning its last bytes backwards. */
module RootIndex {
  import opened Wire
  import opened VarInt

  // ----- The scan -----

  /** The last `len` bytes are one canonical VarInt below `count`. */
  function Candidate(tail: Bytes, len: nat, count: nat): (r: Option<nat>)
    requires len <= |tail|
  {
    match DecodeVarInt(tail, |tail| - len)
    case Ok((val, next)) =>
      if next == |tail| && VarIntSize(val) == len && 0 <= val < count then Some(val) else None
    case Err(_) => None
  }

  /** The longest candidate length: at most five bytes, all but the last carrying the high bit. */
  function Longest(tail: Bytes, len: nat): (n: nat)
    requires 1 <= len <= 5 && len <= |tail|
    ensures len <= n <= 5 && n <= |tail|
    decreases 5 - len
  {
    if len < 5 && len < |tail| && tail[|tail| - len - 1] >= 128 then Longest(tail, len + 1) else len
  }

  /** The longest acceptable candidate of at most `len` bytes. */
  function TryLengths(tail: Bytes, len: nat, count: nat): (r: Option<(nat, nat)>)
    requires len <= |tail|
  {
    if len == 0 then None
    else
      match Candidate(tail, len, count)
      case Some(val) => Some((len, val))
      case None => TryLengths(tail, len - 1, count)
  }

  /** Length and value of the root index at the end of `tail`, or None. */
  function Scan(tail: Bytes, count: nat): Option<(nat, nat)>
    requires |tail| >= 1
  {
    var last := tail[|tail| - 1];
    if last == 0 then Some((1, 0))
    else if last < 128 then TryLengths(tail, Longest(tail, 1), count)
    else None
  }

  /** The scan of the source: collect the possible lengths, then try them from the longest down. */
  method ScanBackwards(tail: Bytes, count: nat) returns (r: Option<(nat, nat)>)
    requires |tail| >= 1
    ensures r == Scan(tail, count)
  {
    hide Candidate;
    var rem := |tail|;
    if tail[rem - 1] == 0 {
      return Some((1, 0));
    }
    if tail[rem - 1] >= 128 {
      return None;
    }
    var possible: nat := 1;
    while possible < Min(5, rem) && tail[rem - possible - 1] >= 128
      invariant 1 <= possible <= 5 && possible <= rem
      invariant Longest(tail, possible) == Longest(tail, 1)
    {
      possible := possible + 1;
    }
    var len: nat := possible;
    while len > 0
      invariant len <= possible
      invariant TryLengths(tail, len, count) == Scan(tail, count)
    {
      var val := Candidate(tail, len, count);
      if val.Some? {
        return Some((len, val.value));
      }
      len := len - 1;
    }
    return None;
  }

  // ----- Values of byte runs -----

  /** The little-endian base-128 value of a run, flags ignored. */
  function RunValue(s: Bytes): nat
  {
    if s == [] then 0 else s[0] % 128 + 128 * RunValue(s[1..])
  }

  lemma {:induction false} ReadIsRunValue(b: Bytes, pos: nat, k: nat, cap: nat)
    requires 1 <= k && 1 <= cap <= 128
    requires ReadLeb(b, pos, k, cap).Ok? && ReadLeb(b, pos, k, cap).value.1 == |b|
    ensures ReadLeb(b, pos, k, cap).value.0 == RunValue(b[pos..])
    decreases k
  {
    assert b[pos..][1..] == b[pos + 1..];
    if b[pos] >= 128 {
      ReadIsRunValue(b, pos + 1, k - 1, cap);
    } else {
      assert b[pos + 1..] == [];
    }
  }

  lemma CandidateValue(tail: Bytes, len: nat, count: nat)
    requires len <= |tail| && Candidate(tail, len, count).Some?
    ensures Candidate(tail, len, count).value == RunValue(tail[|tail| - len..]) < count
    ensures EncodeVarInt(Candidate(tail, len, count).value) == tail[|tail| - len..]
  {
    hide ReadLeb, RunValue, Leb, Limit;
    LimitValues();
    var pos := |tail| - len;
    ReadIsRunValue(tail, pos, 5, 16);
    ReencodingNeverGrows(tail, pos);
    SizeIsEncodedLength(DecodeVarInt(tail, pos).value.0);
    assert tail[pos..|tail|] == tail[pos..];
  }

  lemma {:induction false} LongerRunsAreLarger(tail: Bytes, short: nat, long: nat)
    requires short <= long <= |tail|
    ensures RunValue(tail[|tail| - short..]) <= RunValue(tail[|tail| - long..])
    decreases long
  {
    if short < long {
      LongerRunsAreLarger(tail, short, long - 1);
      assert tail[|tail| - long..][1..] == tail[|tail| - (long - 1)..];
    }
  }

  lemma {:induction false} LebRunValue(n: nat)
    ensures RunValue(Leb(n)) == n
  {
    if n >= 128 {
      LebUnfold(n);
      LebRunValue(n / 128);
      assert Leb(n)[1..] == Leb(n / 128);
    } else {
      assert Leb(n)[1..] == [];
    }
  }

  // ----- What the scan finds -----

  lemma {:induction false} TryFindsLongest(tail: Bytes, len: nat, count: nat, good: nat)
    requires 1 <= good <= len <= |tail| && Candidate(tail, good, count).Some?
    ensures var r := TryLengths(tail, len, count);
            r.Some? && good <= r.value.0 <= len && Candidate(tail, r.value.0, count) == Some(r.value.1)
    decreases len
  {
    hide Candidate;
    if Candidate(tail, len, count).None? {
      TryFindsLongest(tail, len - 1, count, good);
    }
  }

  lemma {:induction false} TryIsCandidate(tail: Bytes, len: nat, count: nat)
    requires len <= |tail|
    ensures var r := TryLengths(tail, len, count);
            r.Some? ==> 1 <= r.value.0 <= len && Candidate(tail, r.value.0, count) == Some(r.value.1)
    decreases len
  {
    hide Candidate;
    if len > 0 && Candidate(tail, len, count).None? {
      TryIsCandidate(tail, len - 1, count);
    }
  }

  /** Whatever the scan picks is in range and re-encodes to the very bytes it was read from. */
  lemma PickedTailIsCanonical(tail: Bytes, count: nat)
    requires |tail| >= 1 && 0 < count < 0x8000_0000 && Scan(tail, count).Some?
    ensures var (len, val) := Scan(tail, count).value;
            1 <= len <= |tail| && val < count && EncodeVarInt(val) == tail[|tail| - len..]
  {
    hide Candidate;
    if tail[|tail| - 1] == 0 {
      assert tail[|tail| - 1..] == [0];
    } else {
      TryIsCandidate(tail, Longest(tail, 1), count);
      CandidateValue(tail, Scan(tail, count).value.0, count);
    }
  }

  lemma {:induction false} LongestReaches(tail: Bytes, len: nat, n: nat)
    requires 1 <= len <= n <= 5 && n <= |tail|
    requires forall i :: |tail| - n <= i < |tail| - 1 ==> tail[i] >= 128
    ensures n <= Longest(tail, len)
    decreases n - len
  {
    if len < n {
      LongestReaches(tail, len + 1, n);
    }
  }

  lemma {:induction false} LongestStops(tail: Bytes, len: nat, n: nat)
    requires 1 <= len <= n < |tail| && len <= 5 && tail[|tail| - n - 1] < 128
    ensures Longest(tail, len) <= n
    decreases n - len
  {
    if len < n && len < 5 && tail[|tail| - len - 1] >= 128 {
      LongestStops(tail, len + 1, n);
    }
  }

  /** A canonical encoding below `count` at the very end is itself a candidate. */
  lemma EncodingIsCandidate(tail: Bytes, count: nat, val: nat)
    requires val < count < 0x8000_0000
    requires |EncodeVarInt(val)| <= |tail| && EncodeVarInt(val) == tail[|tail| - |EncodeVarInt(val)|..]
    ensures Candidate(tail, |EncodeVarInt(val)|, count) == Some(val)
    ensures |EncodeVarInt(val)| <= 5
  {
    hide EncodeVarInt, DecodeVarInt;
    var pos := |tail| - |EncodeVarInt(val)|;
    assert tail[pos..pos + |EncodeVarInt(val)|] == tail[pos..];
    VarIntRoundTrip(tail, pos, val);
    SizeIsEncodedLength(val);
  }

  /** The byte just before the encoding of `root`, absorbed as one more group. */
  function Absorbed(before: byte, root: nat): int { before as int - 128 + 128 * root }

  /** The condition under which the scan stops at the true root index. */
  predicate Unambiguous(before: Bytes, root: nat, count: nat)
  {
    root == 0 || before == [] || before[|before| - 1] < 128 || Absorbed(before[|before| - 1], root) >= count
  }

  /**
   * A canonically spelled root index is found if and only if it is zero, or the byte before it has the
   * high bit clear (or does not exist), or absorbing that byte would give a number that is no node index.
   */
  lemma CanonicalScanIsExactIff(before: Bytes, root: nat, count: nat)
    requires root < count < 0x8000_0000
    ensures Scan(before + EncodeVarInt(root), count) == Some((|EncodeVarInt(root)|, root))
       <==> Unambiguous(before, root, count)
  {
    LebShape(root);
    if root == 0 {
      var tail := before + EncodeVarInt(0);
      assert tail[|tail| - 1] == 0;
    } else if Unambiguous(before, root, count) {
      ScanFindsRoot(before, root, count);
    } else {
      ScanOverruns(before, root, count);
    }
  }

  /** How a non-zero root index ends a buffer, and what the scan then does. */
  lemma TailShape(before: Bytes, root: nat, count: nat)
    requires 0 < root < 0x8000_0000
    ensures var enc := EncodeVarInt(root); var tail := before + enc;
            && tail[|tail| - |enc|..] == enc
            && (forall i :: |tail| - |enc| <= i < |tail| - 1 ==> tail[i] >= 128)
            && Scan(tail, count) == TryLengths(tail, Longest(tail, 1), count)
  {
    hide Leb, TryLengths, Longest;
    LebShape(root);
  }

  lemma ScanFindsRoot(before: Bytes, root: nat, count: nat)
    requires 0 < root < count < 0x8000_0000 && Unambiguous(before, root, count)
    ensures Scan(before + EncodeVarInt(root), count) == Some((|EncodeVarInt(root)|, root))
  {
    hide Candidate, EncodeVarInt, RunValue, Scan, TryLengths, Longest;
    var enc := EncodeVarInt(root);
    var tail := before + enc;
    TailShape(before, root, count);
    EncodingIsCandidate(tail, count, root);
    LongestReaches(tail, 1, |enc|);
    TryFindsLongest(tail, Longest(tail, 1), count, |enc|);
    var found := Scan(tail, count).value.0;
    if found > |enc| {
      NothingLonger(before, root, count, found);
    }
  }

  lemma NothingLonger(before: Bytes, root: nat, count: nat, len: nat)
    requires 0 < root < count < 0x8000_0000 && Unambiguous(before, root, count)
    requires var tail := before + EncodeVarInt(root);
             |EncodeVarInt(root)| < len <= Longest(tail, 1)
    ensures Candidate(before + EncodeVarInt(root), len, count) == None
  {
    hide Candidate, EncodeVarInt, RunValue, Scan, Longest;
    var tail, k := before + EncodeVarInt(root), |EncodeVarInt(root)|;
    assert tail[|tail| - k - 1] == before[|before| - 1];
    if before[|before| - 1] < 128 {
      LongestStops(tail, 1, k);
    } else if Candidate(tail, len, count).Some? {
      CandidateValue(tail, len, count);
      OneMoreByte(before, root);
      LongerRunsAreLarger(tail, k + 1, len);
    }
  }

  /** The run one byte longer than the encoding of `root` has the absorbed value. */
  lemma OneMoreByte(before: Bytes, root: nat)
    requires |before| >= 1 && before[|before| - 1] >= 128 && root < 0x8000_0000
    ensures var tail := before + EncodeVarInt(root); var k := |EncodeVarInt(root)| + 1;
            RunValue(tail[|tail| - k..]) == Absorbed(before[|before| - 1], root)
            && tail[|tail| - k..] == [before[|before| - 1]] + EncodeVarInt(root)
  {
    hide Leb;
    var tail, k := before + EncodeVarInt(root), |EncodeVarInt(root)| + 1;
    assert tail[|tail| - k..] == [before[|before| - 1]] + EncodeVarInt(root);
    assert tail[|tail| - k..][1..] == EncodeVarInt(root);
    LebRunValue(root);
  }

  lemma AbsorbedEncoding(last: byte, root: nat)
    requires last >= 128 && 0 < root && Absorbed(last, root) < 0x8000_0000
    ensures EncodeVarInt(Absorbed(last, root)) == [last] + EncodeVarInt(root)
  {
    hide Leb;
    var wide := Absorbed(last, root);
    assert wide / 128 == root && wide % 128 == last - 128;
    assert wide % TWO32 == wide && root % TWO32 == root;
    LebUnfold(wide);
  }

  lemma ScanOverruns(before: Bytes, root: nat, count: nat)
    requires 0 < root < count < 0x8000_0000 && !Unambiguous(before, root, count)
    ensures var r := Scan(before + EncodeVarInt(root), count); r.Some? && r.value.0 > |EncodeVarInt(root)|
  {
    hide Candidate, EncodeVarInt, RunValue, Scan, TryLengths, Longest;
    var enc := EncodeVarInt(root);
    var tail := before + enc;
    var last := before[|before| - 1];
    TailShape(before, root, count);
    OneMoreByte(before, root);
    AbsorbedEncoding(last, root);
    EncodingIsCandidate(tail, count, Absorbed(last, root));
    assert tail[|tail| - |enc| - 1] == last;
    LongestReaches(tail, 1, |enc| + 1);
    TryFindsLongest(tail, Longest(tail, 1), count, |enc| + 1);
  }

  // ----- Any spelling of the root index -----

  /** The scan stops exactly at `at`, with the value spelled there. */
  predicate Locates(tail: Bytes, at: nat, root: i32, count: nat)
    requires at < |tail|
  {
    var r := Scan(tail, count);
    r.Some? && r.value.0 == |tail| - at && r.value.1 == root
  }

  /** What makes a root index locatable: canonical spelling, a node it points to, and no ambiguity. */
  predicate Recognizable(tail: Bytes, at: nat, root: i32, count: nat)
    requires at < |tail|
  {
    tail[at..] == EncodeVarInt(root) && 0 <= root < count && Unambiguous(tail[..at], root, count)
  }

  /**
   * For every VarInt a reader accepts as root index, padded, negative or out of range included: the
   * backward scan locates it if and only if it is canonical, points to a node and is unambiguous.
   */
  lemma ScanIsExactIff(tail: Bytes, at: nat, root: i32, count: nat)
    requires DecodeVarInt(tail, at) == Ok((root, |tail|)) && 0 < count < 0x8000_0000
    ensures Locates(tail, at, root, count) <==> Recognizable(tail, at, root, count)
  {
    hide Scan, EncodeVarInt, DecodeVarInt, Unambiguous;
    if Locates(tail, at, root, count) {
      PickedTailIsCanonical(tail, count);
    }
    if tail[at..] == EncodeVarInt(root) && 0 <= root < count {
      assert tail == tail[..at] + EncodeVarInt(root);
      CanonicalScanIsExactIff(tail[..at], root, count);
    }
  }

  /** In a tree of at most 128 nodes every canonical root index that points to a node is located. */
  lemma SmallTreesAreScannedExactly(tail: Bytes, at: nat, root: i32, count: nat)
    requires DecodeVarInt(tail, at) == Ok((root, |tail|)) && 0 < count <= 128
    ensures Locates(tail, at, root, count) <==> tail[at..] == EncodeVarInt(root) && 0 <= root < count
  {
    hide Locates, EncodeVarInt, DecodeVarInt;
    ScanIsExactIff(tail, at, root, count);
  }
}
