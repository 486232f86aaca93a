/** The plugin channels that no packet may use to cross the proxy. */
module PluginChannel {
  import opened Wire
  import opened VarInt

  /** "velocity:player_info", "bungeecord:main", "bungee:main", "bungeecord" */
  const PROTECTED: seq<Bytes> := [
    [0x76, 0x65, 0x6C, 0x6F, 0x63, 0x69, 0x74, 0x79, 0x3A, 0x70, 0x6C, 0x61, 0x79, 0x65, 0x72, 0x5F, 0x69, 0x6E, 0x66, 0x6F],
    [0x62, 0x75, 0x6E, 0x67, 0x65, 0x65, 0x63, 0x6F, 0x72, 0x64, 0x3A, 0x6D, 0x61, 0x69, 0x6E],
    [0x62, 0x75, 0x6E, 0x67, 0x65, 0x65, 0x3A, 0x6D, 0x61, 0x69, 0x6E],
    [0x62, 0x75, 0x6E, 0x67, 0x65, 0x65, 0x63, 0x6F, 0x72, 0x64]]

  /** `to_ascii_lowercase`. */
  function Lower(s: Bytes): (t: Bytes)
    ensures |t| == |s|
  {
    if s == [] then [] else [if 0x41 <= s[0] <= 0x5A then s[0] + 32 else s[0]] + Lower(s[1..])
  }

  /** `is_protected_plugin_channel`. */
  predicate IsProtected(p: RawPacket)
  {
    hide DecodeVarInt, Lower;
    match DecodeVarInt(p.payload, 0)
    case Err(_) => false
    case Ok((len, pos)) =>
      0 < len <= 128 && |p.payload| - pos >= len
      && ValidUtf8(p.payload[pos..pos + len]) && Lower(p.payload[pos..pos + len]) in PROTECTED
  }

  // ----- What is protected, letter by letter -----

  const CHANNELS: seq<string> := ["velocity:player_info", "bungeecord:main", "bungee:main", "bungeecord"]

  /** The byte is the character `c`, or its capital if `c` is a small letter. */
  predicate IsLetter(b: byte, c: char) { b == c as int || ('a' <= c <= 'z' && b == c as int - 32) }

  ghost predicate Spells(s: Bytes, name: string)
  {
    |s| == |name| && forall i :: 0 <= i < |s| ==> IsLetter(s[i], name[i])
  }

  /** The payload begins with a VarInt length and that many letters spelling `name`, each in either case. */
  ghost predicate Names(b: Bytes, name: string)
  {
    var d := DecodeVarInt(b, 0);
    d.Ok? && d.value.0 == |name| && d.value.1 + |name| <= |b| && Spells(b[d.value.1..d.value.1 + |name|], name)
  }

  /** The payload begins with one of the four protected names. */
  ghost predicate NamesChannel(b: Bytes) { exists i :: 0 <= i < |CHANNELS| && Names(b, CHANNELS[i]) }

  lemma {:induction false} LowerAt(s: Bytes, i: nat)
    requires i < |s|
    ensures Lower(s)[i] == if 0x41 <= s[i] <= 0x5A then s[i] + 32 else s[i]
    decreases |s|
  {
    if i > 0 {
      LowerAt(s[1..], i - 1);
    }
  }

  /** `t` holds the codes of `name`, which has no capitals and only ASCII characters. */
  ghost predicate Codes(t: Bytes, name: string)
  {
    |t| == |name| && forall i :: 0 <= i < |t| ==> t[i] == name[i] as int && t[i] < 128 && !(0x41 <= t[i] <= 0x5A)
  }

  lemma LowerSpells(s: Bytes, t: Bytes, name: string)
    requires Codes(t, name)
    ensures Lower(s) == t <==> Spells(s, name)
  {
    forall i: nat | i < |s| ensures Lower(s)[i] == if 0x41 <= s[i] <= 0x5A then s[i] + 32 else s[i] {
      LowerAt(s, i);
    }
    if Spells(s, name) {
      forall i: nat | i < |s| ensures Lower(s)[i] == t[i] {
        assert IsLetter(s[i], name[i]);
      }
    }
    if Lower(s) == t {
      forall i: nat | i < |s| ensures IsLetter(s[i], name[i]) {
        assert t[i] == name[i] as int;
      }
    }
  }

  lemma {:induction false} AsciiIsUtf8(s: Bytes)
    requires forall i :: 0 <= i < |s| ==> s[i] < 128
    ensures ValidUtf8(s)
    decreases |s|
  {
    if s != [] {
      AsciiIsUtf8(s[1..]);
    }
  }

  lemma ProtectedCodes()
    ensures forall i :: 0 <= i < 4 ==> Codes(PROTECTED[i], CHANNELS[i]) && 0 < |PROTECTED[i]| <= 128
  {
    assert Codes(PROTECTED[0], CHANNELS[0]);
    assert Codes(PROTECTED[1], CHANNELS[1]);
    assert Codes(PROTECTED[2], CHANNELS[2]);
    assert Codes(PROTECTED[3], CHANNELS[3]);
  }

  /** The name test of the code, letter by letter. */
  lemma ProtectedName(s: Bytes)
    ensures 0 < |s| <= 128 && ValidUtf8(s) && Lower(s) in PROTECTED <==> exists i :: 0 <= i < 4 && Spells(s, CHANNELS[i])
  {
    hide Lower, ValidUtf8, Codes, Spells;
    ProtectedCodes();
    forall i | 0 <= i < 4
      ensures Lower(s) == PROTECTED[i] <==> Spells(s, CHANNELS[i])
      ensures Spells(s, CHANNELS[i]) ==> ValidUtf8(s) && |s| == |PROTECTED[i]|
    {
      LowerSpells(s, PROTECTED[i], CHANNELS[i]);
      if Spells(s, CHANNELS[i]) {
        SpelledIsAscii(s, PROTECTED[i], CHANNELS[i]);
      }
    }
    if Lower(s) in PROTECTED {
      var i :| 0 <= i < 4 && Lower(s) == PROTECTED[i];
      assert Spells(s, CHANNELS[i]);
    }
  }

  lemma SpellsLength(s: Bytes, name: string)
    requires Spells(s, name)
    ensures |s| == |name|
  {}

  /** A packet is protected exactly when its payload begins with one of the four names, in any mix of cases. */
  lemma ProtectedIff(p: RawPacket)
    ensures IsProtected(p) <==> NamesChannel(p.payload)
  {
    hide DecodeVarInt, Lower, ValidUtf8, Spells;
    var b := p.payload;
    if DecodeVarInt(b, 0).Ok? {
      var (len, pos) := DecodeVarInt(b, 0).value;
      if 0 <= len && pos + len <= |b| {
        var s := b[pos..pos + len];
        ProtectedName(s);
        if i :| 0 <= i < 4 && Spells(s, CHANNELS[i]) {
          SpellsLength(s, CHANNELS[i]);
          assert Names(b, CHANNELS[i]);
        }
      }
    }
  }

  lemma SpelledIsAscii(s: Bytes, t: Bytes, name: string)
    requires Codes(t, name) && Spells(s, name)
    ensures ValidUtf8(s) && |s| == |t| == |name|
  {
    forall i | 0 <= i < |s| ensures s[i] < 128 {
      assert IsLetter(s[i], name[i]) && t[i] == name[i] as int;
    }
    AsciiIsUtf8(s);
  }
}
