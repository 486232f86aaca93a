/** Mojang's server hash: a 20-byte hash written as a signed hexadecimal number. */
module Digest {
  import opened Wire
  import opened Fields

  // ----- Numbers and hexadecimal text -----

  /** The two's-complement reading of big-endian bytes. */
  function Signed(hash: Bytes): int
    requires |hash| > 0
  {
    if hash[0] >= 128 then BigEndian(hash) - Pow256(|hash|) else BigEndian(hash)
  }

  function HexDigit(n: int): (c: char)
    requires 0 <= n < 16
  {
    if n < 10 then ('0' as int + n) as char else ('a' as int + n - 10) as char
  }

  function HexValue(c: char): (n: Option<nat>)
    ensures n.Some? ==> n.value < 16
  {
    if '0' <= c <= '9' then Some(c as int - '0' as int)
    else if 'a' <= c <= 'f' then Some(c as int - 'a' as int + 10)
    else None
  }

  /** `hex::encode`: two lower-case digits a byte. */
  function Hex(b: Bytes): (s: string)
  {
    if b == [] then "" else Hex(b[..|b| - 1]) + [HexDigit(b[|b| - 1] / 16), HexDigit(b[|b| - 1] % 16)]
  }

  /** `trim_start_matches('0')`. */
  function TrimZeros(s: string): (t: string)
    ensures |t| <= |s|
    ensures t != "" ==> t[0] != '0'
  {
    if s != "" && s[0] == '0' then TrimZeros(s[1..]) else s
  }

  /** The value of unsigned hexadecimal text. */
  function ParseHex(s: string): (n: Option<nat>)
  {
    if s == "" then Some(0)
    else
      match (ParseHex(s[..|s| - 1]), HexValue(s[|s| - 1]))
      case (Some(n), Some(d)) => Some(16 * n + d)
      case _ => None
  }

  /** The value of signed hexadecimal text. */
  function ParseSigned(s: string): (n: Option<int>)
  {
    if s != "" && s[0] == '-' then
      match ParseHex(s[1..])
      case Some(n) => var v: int := n; Some(-v)
      case None => None
    else
      match ParseHex(s)
      case Some(n) => var v: int := n; Some(v)
      case None => None
  }

  /** The one accepted spelling of a number: no leading zero, no empty digits, no minus zero. */
  predicate Canonical(s: string)
  {
    s == "0" || (|s| >= 1 && s[0] != '0' && s[0] != '-') || (|s| >= 2 && s[0] == '-' && s[1] != '0' && s[1] != '-')
  }

  // ----- Negation in place -----


  /** `overflowing_add(1)` without its flag. */
  function Increment(b: byte): byte { if b == 255 then 0 else b + 1 }

  /** Inverts the bits and adds `carry`, from the last byte to the first. */
  function Negated(b: Bytes, carry: bool): (r: Bytes)
    ensures |r| == |b|
  {
    if b == [] then []
    else
      var last := 255 - b[|b| - 1];
      var sum := if carry then Increment(last) else last;
      Negated(b[..|b| - 1], carry && last == 255) + [sum]
  }

  lemma {:induction false} NegatedValue(b: Bytes, carry: bool)
    ensures BigEndian(Negated(b, carry))
         == if carry && BigEndian(b) == 0 then 0 else Pow256(|b|) - BigEndian(b) - (if carry then 0 else 1)
    ensures BigEndian(b) < Pow256(|b|)
  {
    if b != [] {
      var front, last := b[..|b| - 1], 255 - b[|b| - 1];
      var sum := if carry then Increment(last) else last;
      NegatedValue(front, carry && last == 255);
      var r := Negated(front, carry && last == 255);
      assert (r + [sum])[..|r|] == r;
      assert BigEndian(r + [sum]) == 256 * BigEndian(r) + sum;
    }
  }

  lemma NegatedStep(b: Bytes, i: nat, carry: bool, tail: Bytes)
    requires i < |b|
    ensures var last := 255 - b[i]; var sum := if carry then Increment(last) else last;
            Negated(b[..i + 1], carry) + tail == Negated(b[..i], carry && last == 255) + ([sum] + tail)
  {
    assert b[..i + 1][..i] == b[..i];
  }

  /** The loop over the bytes from last to first: invert, then propagate the carry. */
  method NegateInPlace(hash: array<byte>)
    modifies hash
    ensures hash[..] == Negated(old(hash[..]), true)
  {
    hide Negated;
    var carry := true;
    var i := hash.Length;
    ghost var was := hash[..];
    ghost var tail: Bytes := [];
    assert was[..i] == was && Negated(was, true) == Negated(was[..i], carry) + tail;
    while i > 0
      invariant 0 <= i <= hash.Length
      invariant hash[..i] == was[..i] && hash[i..] == tail
      invariant Negated(was, true) == Negated(was[..i], carry) + tail
    {
      i := i - 1;
      NegatedStep(was, i, carry, tail);
      assert hash[i] == was[..i + 1][i];
      hash[i] := 255 - hash[i];
      if carry {
        carry := hash[i] == 255;
        hash[i] := Increment(hash[i]);
      }
      tail := [hash[i]] + tail;
    }
    assert hash[..] == hash[0..];
    EmptyNegated(was[..0], carry, tail);
  }

  lemma EmptyNegated(b: Bytes, carry: bool, tail: Bytes)
    requires b == []
    ensures Negated(b, carry) + tail == tail
  {}

  // ----- The digest -----

  /** The textual form of a hash. */
  function DigestOf(hash: Bytes): (s: string)
    requires |hash| > 0
  {
    var negative := hash[0] >= 128;
    var trimmed := TrimZeros(Hex(if negative then Negated(hash, true) else hash));
    var digits := if trimmed == "" then "0" else trimmed;
    if negative then "-" + digits else digits
  }

  lemma DigitParses(s: string, n: nat, d: nat)
    requires ParseHex(s) == Some(n) && d < 16
    ensures ParseHex(s + [HexDigit(d)]) == Some(16 * n + d)
  {
    var t := s + [HexDigit(d)];
    assert t[..|t| - 1] == s;
  }

  lemma NothingParses()
    ensures ParseHex("") == Some(0)
  {}

  lemma {:induction false} HexParses(b: Bytes)
    ensures ParseHex(Hex(b)) == Some(BigEndian(b))
  {
    hide HexDigit, ParseHex;
    if b == [] {
      NothingParses();
    } else {
      var front, last := b[..|b| - 1], b[|b| - 1];
      HexParses(front);
      DigitParses(Hex(front), BigEndian(front), last / 16);
      DigitParses(Hex(front) + [HexDigit(last / 16)], 16 * BigEndian(front) + last / 16, last % 16);
      assert Hex(b) == Hex(front) + [HexDigit(last / 16)] + [HexDigit(last % 16)];
    }
  }

  lemma {:induction false} LeadingZero(s: string)
    requires |s| > 0 && s[0] == '0'
    ensures ParseHex(s) == ParseHex(s[1..])
  {
    if |s| > 1 {
      LeadingZero(s[..|s| - 1]);
      assert s[..|s| - 1][1..] == s[1..][..|s| - 2];
    } else {
      assert s[..0] == "";
    }
  }

  lemma {:induction false} TrimKeepsValue(s: string)
    ensures ParseHex(TrimZeros(s)) == ParseHex(s)
  {
    if s != "" && s[0] == '0' {
      TrimKeepsValue(s[1..]);
      LeadingZero(s);
    }
  }

  lemma {:induction false} HexHasNoMinus(b: Bytes)
    ensures forall i :: 0 <= i < |Hex(b)| ==> Hex(b)[i] != '-'
  {
    if b != [] {
      HexHasNoMinus(b[..|b| - 1]);
    }
  }

  lemma {:induction false} TrimIsSuffix(s: string)
    ensures exists k :: 0 <= k <= |s| && TrimZeros(s) == s[k..]
  {
    if s != "" && s[0] == '0' {
      TrimIsSuffix(s[1..]);
      var k :| 0 <= k <= |s| - 1 && TrimZeros(s[1..]) == s[1..][k..];
      assert s[1..][k..] == s[k + 1..];
    } else {
      assert s == s[0..];
    }
  }

  /** A hash whose sign bit is set is not zero. */
  lemma {:induction false} NonzeroByte(b: Bytes)
    requires |b| > 0 && b[0] > 0
    ensures BigEndian(b) > 0
  {
    if |b| > 1 {
      NonzeroByte(b[..|b| - 1]);
    }
  }

  lemma MagnitudeText(b: Bytes)
    ensures var t := TrimZeros(Hex(b));
            && ParseHex(t) == Some(BigEndian(b))
            && (t != "" ==> t[0] != '0' && t[0] != '-')
            && (t == "" ==> BigEndian(b) == 0)
  {
    HexParses(b);
    TrimKeepsValue(Hex(b));
    HexHasNoMinus(b);
    TrimIsSuffix(Hex(b));
  }

  /**
   * The digest of any hash is the canonical signed base-16 spelling of its two's-complement value:
   * it parses back to that value, and has no leading zero and no minus sign in front of zero.
   */
  lemma DigestIsCanonicalSignedHex(hash: Bytes)
    requires |hash| > 0
    ensures ParseSigned(DigestOf(hash)) == Some(Signed(hash))
    ensures Canonical(DigestOf(hash))
  {
    hide Hex, TrimZeros, Negated;
    if hash[0] >= 128 {
      NegatedValue(hash, true);
      NonzeroByte(hash);
      var text := TrimZeros(Hex(Negated(hash, true)));
      MagnitudeText(Negated(hash, true));
      assert ("-" + text)[1..] == text;
    } else {
      MagnitudeText(hash);
      assert ParseHex("0"[..0]) == Some(0);
    }
  }

  lemma {:induction false} NonzeroText(s: string)
    requires s != "" && s[0] != '0' && ParseHex(s).Some?
    ensures ParseHex(s).value > 0
  {
    if |s| > 1 {
      NonzeroText(s[..|s| - 1]);
    }
  }

  lemma {:induction false} HexTextIsUnique(s: string, t: string)
    requires s != "" ==> s[0] != '0'
    requires t != "" ==> t[0] != '0'
    requires ParseHex(s).Some? && ParseHex(s) == ParseHex(t)
    ensures s == t
    decreases |s|
  {
    if s == "" || t == "" {
      if s != t {
        NonzeroText(if s == "" then t else s);
      }
    } else {
      var s', t' := s[..|s| - 1], t[..|t| - 1];
      HexTextIsUnique(s', t');
      assert s == s' + [s[|s| - 1]] && t == t' + [t[|t| - 1]];
    }
  }

  /** No two canonical spellings denote the same number, so the digest is a function of the value alone. */
  lemma CanonicalSpellingIsUnique(s: string, t: string)
    requires Canonical(s) && Canonical(t) && ParseSigned(s).Some? && ParseSigned(s) == ParseSigned(t)
    ensures s == t
  {
    assert ParseHex("0"[..0]) == Some(0);
    var sd := if s == "0" then "" else if s[0] == '-' then s[1..] else s;
    var td := if t == "0" then "" else if t[0] == '-' then t[1..] else t;
    if s != "0" { NonzeroText(sd); }
    if t != "0" { NonzeroText(td); }
    HexTextIsUnique(sd, td);
    if s[0] == '-' { assert s == "-" + sd; }
    if t[0] == '-' { assert t == "-" + td; }
  }

  /** `mojang_sha1_digest` after hashing: the hash is negated where it lies, then spelled out. */
  method MojangDigest(hash: array<byte>) returns (s: string)
    requires hash.Length == 20
    modifies hash
    ensures s == DigestOf(old(hash[..]))
  {
    var isNegative := hash[0] >= 128;
    if isNegative {
      NegateInPlace(hash);
      var trimmed := TrimZeros(Hex(hash[..]));
      s := "-" + if trimmed == "" then "0" else trimmed;
    } else {
      var trimmed := TrimZeros(Hex(hash[..]));
      s := if trimmed == "" then "0" else trimmed;
    }
  }
}
