/** The session's cache of registry packets: what it holds, and what replaying it rebuilds. */
module Registry {
  import opened Wire
  import opened VarInt
  import opened Fields

  const REGISTRY_DATA_ID: i32 := 0x07

  datatype RegistryData = RegistryData(id: Bytes, raw: Bytes)

  type Cache = map<Bytes, RegistryData>

  // ----- RegistryData packets -----

  /** `RegistryDataPacket::decode`: the identifier is text, the rest is kept verbatim. */
  function Decode(p: RawPacket): (r: Result<RegistryData>)
    ensures r.Ok? ==> p.id == REGISTRY_DATA_ID && IsText(r.value.id)
  {
    hide TakeString;
    if p.id != REGISTRY_DATA_ID then Err(InvalidPacketId(p.id))
    else
      var (id, pos) :- TakeString(p.payload, 0);
      Ok(RegistryData(id, p.payload[pos..]))
  }

  /** `RegistryDataPacket::encode`. */
  function Encode(r: RegistryData): RawPacket { RawPacket(REGISTRY_DATA_ID, PutString(r.id) + r.raw) }

  lemma RegistryRoundTrip(r: RegistryData)
    requires IsText(r.id)
    ensures Decode(Encode(r)) == Ok(r)
  {
    hide TakeString, PutString, IsText;
    AtSelf(PutString(r.id), r.raw);
    StringRoundTrip(PutString(r.id) + r.raw, 0, r.id);
  }

  // ----- The cache as a fold over the packets seen -----

  /** `cache_packet`: a decodable RegistryData replaces the entry of its id, anything else is ignored. */
  function Step(c: Cache, p: RawPacket): Cache
  {
    match Decode(p)
    case Ok(r) => c[r.id := r]
    case Err(_) => c
  }

  function After(c: Cache, ps: seq<RawPacket>): Cache
  {
    if ps == [] then c else Step(After(c, ps[..|ps| - 1]), ps[|ps| - 1])
  }

  lemma AfterAppend(c: Cache, ps: seq<RawPacket>, p: RawPacket)
    ensures After(c, ps + [p]) == Step(After(c, ps), p)
  {
    assert (ps + [p])[..|ps|] == ps;
  }

  lemma {:induction false} AfterCons(c: Cache, p: RawPacket, ps: seq<RawPacket>)
    ensures After(c, [p] + ps) == After(Step(c, p), ps)
    decreases |ps|
  {
    hide Step;
    if ps == [] {
      assert [p] + ps == [p] && [p][..0] == [];
      assert After(c, []) == c;
    } else {
      var n := |ps| - 1;
      assert ([p] + ps)[..n + 1] == [p] + ps[..n];
      AfterCons(c, p, ps[..n]);
    }
  }

  lemma OthersIgnored(c: Cache, p: RawPacket)
    ensures p.id != REGISTRY_DATA_ID ==> Step(c, p) == c
  {}

  /** `ps[i]` is the last packet of the sequence that decodes to registry data for `id`. */
  ghost predicate IsLastFor(ps: seq<RawPacket>, id: Bytes, i: nat)
  {
    && i < |ps| && Concerns(ps[i], id)
    && forall j :: i < j < |ps| ==> !Concerns(ps[j], id)
  }

  predicate Concerns(p: RawPacket, id: Bytes) { Decode(p).Ok? && Decode(p).value.id == id }

  lemma {:induction false} CacheHoldsLast(ps: seq<RawPacket>, id: Bytes)
    ensures id in After(map[], ps) <==> exists i: nat :: IsLastFor(ps, id, i)
    ensures forall i: nat :: IsLastFor(ps, id, i) ==> id in After(map[], ps) && After(map[], ps)[id] == Decode(ps[i]).value
  {
    hide Decode, Step;
    if ps != [] {
      var n := |ps| - 1;
      var front := ps[..n];
      CacheHoldsLast(front, id);
      StepAt(After(map[], front), ps[n], id);
      if Concerns(ps[n], id) {
        assert IsLastFor(ps, id, n);
      } else {
        LastBefore(ps, id);
        forall i: nat | IsLastFor(ps, id, i)
          ensures id in After(map[], ps) && After(map[], ps)[id] == Decode(ps[i]).value
        {
          assert IsLastFor(front, id, i) && front[i] == ps[i];
        }
        if id in After(map[], ps) {
          var i: nat :| IsLastFor(front, id, i);
          assert IsLastFor(ps, id, i);
        }
      }
    }
  }

  /** What one packet does to one entry. */
  lemma StepAt(c: Cache, p: RawPacket, id: Bytes)
    ensures Concerns(p, id) ==> id in Step(c, p) && Step(c, p)[id] == Decode(p).value
    ensures !Concerns(p, id) ==> (id in Step(c, p) <==> id in c) && (id in c ==> Step(c, p)[id] == c[id])
  {
    hide Decode;
  }

  lemma LastBefore(ps: seq<RawPacket>, id: Bytes)
    requires ps != [] && !Concerns(ps[|ps| - 1], id)
    ensures forall i: nat :: IsLastFor(ps, id, i) <==> IsLastFor(ps[..|ps| - 1], id, i)
  {
    hide Concerns;
  }

  /** Every entry sits under its own id, which is text. */
  ghost predicate Consistent(c: Cache)
  {
    forall id :: id in c ==> c[id].id == id && IsText(id)
  }

  lemma {:induction false} CacheIsConsistent(ps: seq<RawPacket>)
    ensures Consistent(After(map[], ps))
  {
    hide IsText;
    if ps != [] {
      CacheIsConsistent(ps[..|ps| - 1]);
    }
  }

  // ----- Key order -----

  /** The order of `BTreeMap<String, _>`: bytewise lexicographic. */
  predicate Leq(a: Bytes, b: Bytes)
    decreases |a|
  {
    a == [] || (b != [] && (a[0] < b[0] || (a[0] == b[0] && Leq(a[1..], b[1..]))))
  }

  lemma {:induction false} LeqTotal(a: Bytes, b: Bytes)
    ensures Leq(a, b) || Leq(b, a)
    decreases |a|
  {
    if a != [] && b != [] {
      LeqTotal(a[1..], b[1..]);
    }
  }

  lemma {:induction false} LeqAntisymmetric(a: Bytes, b: Bytes)
    requires Leq(a, b) && Leq(b, a)
    ensures a == b
    decreases |a|
  {
    if a != [] {
      LeqAntisymmetric(a[1..], b[1..]);
      assert a == [a[0]] + a[1..] && b == [b[0]] + b[1..];
    }
  }

  lemma {:induction false} LeqTransitive(a: Bytes, b: Bytes, c: Bytes)
    requires Leq(a, b) && Leq(b, c)
    ensures Leq(a, c)
    decreases |a|
  {
    if a != [] && a[0] == b[0] == c[0] {
      LeqTransitive(a[1..], b[1..], c[1..]);
    }
  }

  ghost predicate IsLeast(k: Bytes, keys: set<Bytes>) { k in keys && forall j :: j in keys ==> Leq(k, j) }

  lemma {:induction false} LeastExists(keys: set<Bytes>)
    requires keys != {}
    ensures exists k :: IsLeast(k, keys)
    decreases |keys|
  {
    var x :| x in keys;
    var others := keys - {x};
    LeqTotal(x, x);
    if others == {} {
      assert keys == {x};
      assert IsLeast(x, keys);
    } else {
      LeastExists(others);
      var y :| IsLeast(y, others);
      LeqTotal(x, y);
      var k := if Leq(x, y) then x else y;
      forall j | j in keys ensures Leq(k, j) {
        if j != x {
          assert j in others;
          if Leq(x, y) { LeqTransitive(x, y, j); }
        }
      }
      assert IsLeast(k, keys);
    }
  }

  ghost function Least(keys: set<Bytes>): (k: Bytes)
    requires keys != {}
    ensures IsLeast(k, keys)
  {
    LeastExists(keys);
    var k :| IsLeast(k, keys);
    k
  }

  /** The keys in ascending order. */
  ghost function Sorted(keys: set<Bytes>): (ks: seq<Bytes>)
    decreases |keys|
  {
    if keys == {} then [] else var k := Least(keys); [k] + Sorted(keys - {k})
  }

  ghost predicate Ascending(ks: seq<Bytes>)
  {
    forall i, j :: 0 <= i < j < |ks| ==> Leq(ks[i], ks[j]) && ks[i] != ks[j]
  }

  lemma {:induction false} SortedIsAscending(keys: set<Bytes>)
    ensures Ascending(Sorted(keys)) && forall k :: k in Sorted(keys) <==> k in keys
    decreases |keys|
  {
    hide Leq;
    if keys != {} {
      var k := Least(keys);
      SortedIsAscending(keys - {k});
      ConsAscending(k, Sorted(keys - {k}), keys);
    }
  }

  lemma ConsAscending(k: Bytes, rest: seq<Bytes>, keys: set<Bytes>)
    requires IsLeast(k, keys) && Ascending(rest) && forall x :: x in rest <==> x in keys - {k}
    ensures Ascending([k] + rest) && forall x :: x in [k] + rest <==> x in keys
  {
    hide Leq;
    var all := [k] + rest;
    forall i, j | 0 <= i < j < |all| ensures Leq(all[i], all[j]) && all[i] != all[j] {
      assert all[j] == rest[j - 1] && rest[j - 1] in rest;
    }
  }

  ghost predicate Lists(ks: seq<Bytes>, keys: set<Bytes>) { Ascending(ks) && forall k :: k in ks <==> k in keys }

  /** There is only one way to list a set in ascending order. */
  lemma {:induction false} SortedIsTheOnlyList(ks: seq<Bytes>, keys: set<Bytes>)
    requires Lists(ks, keys)
    ensures ks == Sorted(keys)
    decreases |keys|
  {
    hide Leq;
    if ks == [] {
      assert forall k :: k !in keys;
      assert keys == {};
    } else {
      assert ks[0] in keys;
      var k := Least(keys);
      var i :| 0 <= i < |ks| && ks[i] == k;
      if i > 0 {
        assert ks[0] in ks;
        LeqAntisymmetric(ks[0], k);
      }
      ListsRest(ks, keys);
      SortedIsTheOnlyList(ks[1..], keys - {k});
      assert ks == [k] + ks[1..];
    }
  }

  lemma ListsRest(ks: seq<Bytes>, keys: set<Bytes>)
    requires Lists(ks, keys) && ks != []
    ensures Lists(ks[1..], keys - {ks[0]})
  {
    hide Leq;
    forall k ensures k in ks[1..] <==> k in keys - {ks[0]} {
      if k in keys && k != ks[0] {
        var i :| 0 <= i < |ks| && ks[i] == k;
        assert ks[1..][i - 1] == k;
      }
    }
  }

  /** `serialize_all`: one packet per entry, in key order. */
  ghost function SerializeAll(c: Cache): (ps: seq<RawPacket>)
    ensures |ps| == |Sorted(c.Keys)|
    ensures forall i :: 0 <= i < |ps| ==> Sorted(c.Keys)[i] in c && ps[i] == Encode(c[Sorted(c.Keys)[i]])
  {
    SortedIsAscending(c.Keys);
    var ks := Sorted(c.Keys);
    assert forall i :: 0 <= i < |ks| ==> ks[i] in ks;
    seq(|ks|, i requires 0 <= i < |ks| => Encode(c[ks[i]]))
  }

  /**
   * Each cached registry is emitted exactly once, as it was received, in the one ascending order of the
   * keys: for any way to list them in that order, this is the output.
   */
  lemma SerializedOnceInKeyOrder(ps: seq<RawPacket>)
    ensures var c := After(map[], ps); var out := SerializeAll(c); var ks := Sorted(c.Keys);
            && Lists(ks, c.Keys) && |out| == |ks|
            && (forall i :: 0 <= i < |out| ==> ks[i] in c && Decode(out[i]) == Ok(c[ks[i]]) && c[ks[i]].id == ks[i])
            && (forall other :: Lists(other, c.Keys) ==> other == ks)
  {
    hide Decode, Encode, Sorted, Leq, IsText;
    var c := After(map[], ps);
    CacheIsConsistent(ps);
    SortedIsAscending(c.Keys);
    forall other | Lists(other, c.Keys) ensures other == Sorted(c.Keys) {
      SortedIsTheOnlyList(other, c.Keys);
    }
    var out := SerializeAll(c);
    forall i | 0 <= i < |out| ensures Decode(out[i]) == Ok(c[Sorted(c.Keys)[i]]) {
      RegistryRoundTrip(c[Sorted(c.Keys)[i]]);
    }
  }

  lemma {:induction false} ReplayPrefix(c: Cache, n: nat)
    requires Consistent(c) && n <= |SerializeAll(c)|
    ensures var ks := Sorted(c.Keys)[..n];
            After(map[], SerializeAll(c)[..n]) == map k | k in ks && k in c :: c[k]
    decreases n
  {
    hide Decode, Encode, Sorted, IsText;
    var all := SerializeAll(c);
    if n > 0 {
      ReplayPrefix(c, n - 1);
      assert all[..n][..n - 1] == all[..n - 1];
      var k := Sorted(c.Keys)[n - 1];
      RegistryRoundTrip(c[k]);
      assert Sorted(c.Keys)[..n] == Sorted(c.Keys)[..n - 1] + [k];
    }
  }

  /** Replaying everything that was cached into an empty cache rebuilds an equal cache. */
  lemma ReplayRebuilds(ps: seq<RawPacket>)
    ensures var c := After(map[], ps); After(map[], SerializeAll(c)) == c
  {
    hide Decode, Encode, Sorted, IsText, SerializeAll;
    var c := After(map[], ps);
    CacheIsConsistent(ps);
    SortedIsAscending(c.Keys);
    var all := SerializeAll(c);
    ReplayPrefix(c, |all|);
    assert all[..|all|] == all && Sorted(c.Keys)[..|all|] == Sorted(c.Keys);
  }

  // ----- The code -----

  class SessionRegistryCache {
    var registries: Cache

    constructor ()
      ensures registries == map[]
    {
      registries := map[];
    }

    /** `insert`. */
    method Insert(r: RegistryData)
      modifies this
      ensures registries == old(registries)[r.id := r]
    {
      registries := registries[r.id := r];
    }

    /** `cache_packet`. */
    method CachePacket(p: RawPacket) returns (r: Result<bool>)
      modifies this
      ensures registries == Step(old(registries), p)
      ensures r == if p.id != REGISTRY_DATA_ID then Ok(false) else if Decode(p).Ok? then Ok(true) else Err(Decode(p).error)
    {
      if p.id != REGISTRY_DATA_ID {
        return Ok(false);
      }
      var reg := Decode(p);
      if reg.Err? {
        return Err(reg.error);
      }
      Insert(reg.value);
      r := Ok(true);
    }
  }
}
