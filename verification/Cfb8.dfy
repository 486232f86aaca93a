/** 8-bit cipher feedback (section 6.3 of NIST SP 800-38A) over an arbitrary block function. */
module Cfb8 {
  import opened Wire

  /** The first byte of the block cipher applied to the shift register, for a fixed key. */
  type BlockByte = Bytes -> byte

  // ----- Exclusive or, bit by bit -----

  function XorBits(a: nat, b: nat, bits: nat): (x: nat)
    ensures bits <= 8 ==> x < Pow2(bits)
  {
    if bits == 0 then 0
    else 2 * XorBits(a / 2, b / 2, bits - 1) + (if a % 2 == b % 2 then 0 else 1)
  }

  function Pow2(n: nat): nat { if n == 0 then 1 else 2 * Pow2(n - 1) }

  function Xor(a: byte, b: byte): byte
  {
    assert Pow2(8) == 256 by { assert Pow2(4) == 16; }
    XorBits(a, b, 8)
  }

  /** The `i`-th bit. */
  function Bit(a: nat, i: nat): bool { if i == 0 then a % 2 == 1 else Bit(a / 2, i - 1) }

  lemma {:induction false} XorBitsIsBitwise(a: nat, b: nat, bits: nat, i: nat)
    requires i < bits
    ensures Bit(XorBits(a, b, bits), i) == (Bit(a, i) != Bit(b, i))
    decreases i
  {
    Halve(XorBits(a / 2, b / 2, bits - 1), if a % 2 == b % 2 then 0 else 1);
    if i > 0 {
      XorBitsIsBitwise(a / 2, b / 2, bits - 1, i - 1);
    }
  }

  /** Each of the eight bits is the exclusive or of the operands' bits. */
  lemma XorIsBitwise(a: byte, b: byte, i: nat)
    requires i < 8
    ensures Bit(Xor(a, b), i) == (Bit(a, i) != Bit(b, i))
  {
    XorBitsIsBitwise(a, b, 8, i);
  }

  lemma Halve(x: nat, bit: nat)
    requires bit < 2
    ensures (2 * x + bit) / 2 == x && (2 * x + bit) % 2 == bit
  {}

  lemma {:induction false} XorBitsCancel(a: nat, b: nat, bits: nat)
    requires a < Pow2(bits)
    ensures XorBits(XorBits(a, b, bits), b, bits) == a
  {
    if bits > 0 {
      XorBitsCancel(a / 2, b / 2, bits - 1);
      Halve(XorBits(a / 2, b / 2, bits - 1), if a % 2 == b % 2 then 0 else 1);
    }
  }

  lemma XorCancel(a: byte, k: byte)
    ensures Xor(Xor(a, k), k) == a
  {
    assert Pow2(8) == 256 by { assert Pow2(4) == 16; }
    XorBitsCancel(a, k, 8);
  }

  // ----- The mode -----

  function Shift(reg: Bytes, c: byte): (r: Bytes)
    requires |reg| > 0
    ensures |r| == |reg|
  {
    reg[1..] + [c]
  }

  /** The register once the ciphertext `ct` has been shifted in. */
  function After(reg: Bytes, ct: Bytes): (r: Bytes)
    requires |reg| > 0
    ensures |r| == |reg|
    decreases |ct|
  {
    if ct == [] then reg else After(Shift(reg, ct[0]), ct[1..])
  }

  function Encrypt(e: BlockByte, reg: Bytes, pt: Bytes): (ct: Bytes)
    requires |reg| > 0
    ensures |ct| == |pt|
    decreases |pt|
  {
    if pt == [] then []
    else
      var c := Xor(pt[0], e(reg));
      [c] + Encrypt(e, Shift(reg, c), pt[1..])
  }

  function Decrypt(e: BlockByte, reg: Bytes, ct: Bytes): (pt: Bytes)
    requires |reg| > 0
    ensures |pt| == |ct|
    decreases |ct|
  {
    if ct == [] then []
    else [Xor(ct[0], e(reg))] + Decrypt(e, Shift(reg, ct[0]), ct[1..])
  }

  // ----- Laws -----

  /** The register is always the last bytes of the initial vector followed by the ciphertext. */
  lemma {:induction false} RegisterIsLastBytes(iv: Bytes, ct: Bytes)
    requires |iv| > 0
    ensures After(iv, ct) == (iv + ct)[|ct|..]
    decreases |ct|
  {
    if ct == [] {
      assert iv + ct == iv;
    } else {
      RegisterIsLastBytes(Shift(iv, ct[0]), ct[1..]);
      assert (iv + ct)[1..] == Shift(iv, ct[0]) + ct[1..];
      assert (iv + ct)[|ct|..] == (iv + ct)[1..][|ct| - 1..];
    }
  }

  /** Each ciphertext byte is its plaintext byte masked with the cipher of the preceding 16 bytes. */
  lemma {:induction false} EncryptAt(e: BlockByte, iv: Bytes, pt: Bytes, i: nat)
    requires |iv| > 0 && i < |pt|
    ensures var ct := Encrypt(e, iv, pt); ct[i] == Xor(pt[i], e((iv + ct[..i])[i..]))
    decreases i
  {
    hide Xor;
    var ct := Encrypt(e, iv, pt);
    var next := Shift(iv, ct[0]);
    if i == 0 {
      assert (iv + ct[..0])[0..] == iv;
    } else {
      EncryptAt(e, next, pt[1..], i - 1);
      assert ct[1..] == Encrypt(e, next, pt[1..]);
      assert ct[1..][..i - 1] == ct[1..i];
      assert iv + ct[..i] == [iv[0]] + (next + ct[1..i]);
      assert (iv + ct[..i])[i..] == (next + ct[1..i])[i - 1..];
    }
  }

  /** Decryption undoes encryption from the same register. */
  lemma {:induction false} DecryptUndoesEncrypt(e: BlockByte, reg: Bytes, pt: Bytes)
    requires |reg| > 0
    ensures Decrypt(e, reg, Encrypt(e, reg, pt)) == pt
    decreases |pt|
  {
    if pt != [] {
      var c := Xor(pt[0], e(reg));
      XorCancel(pt[0], e(reg));
      DecryptUndoesEncrypt(e, Shift(reg, c), pt[1..]);
      assert Encrypt(e, reg, pt)[1..] == Encrypt(e, Shift(reg, c), pt[1..]);
    }
  }

  lemma AfterCons(reg: Bytes, c: byte, ct: Bytes)
    requires |reg| > 0
    ensures After(reg, [c] + ct) == After(Shift(reg, c), ct)
  {
    assert ([c] + ct)[1..] == ct;
  }

  lemma EncryptCons(e: BlockByte, reg: Bytes, p: byte, pt: Bytes)
    requires |reg| > 0
    ensures var c := Xor(p, e(reg)); Encrypt(e, reg, [p] + pt) == [c] + Encrypt(e, Shift(reg, c), pt)
  {
    assert ([p] + pt)[1..] == pt;
  }

  /** Encrypting in pieces, carrying the register along, is encrypting at once. */
  lemma {:induction false} EncryptInPieces(e: BlockByte, reg: Bytes, a: Bytes, b: Bytes)
    requires |reg| > 0
    ensures Encrypt(e, reg, a + b) == Encrypt(e, reg, a) + Encrypt(e, After(reg, Encrypt(e, reg, a)), b)
    decreases |a|, 1
  {
    if a == [] {
      assert a + b == b;
    } else {
      EncryptInPiecesCons(e, reg, a[0], a[1..], b);
      assert a == [a[0]] + a[1..];
    }
  }

  lemma {:induction false} EncryptInPiecesCons(e: BlockByte, reg: Bytes, p: byte, a: Bytes, b: Bytes)
    requires |reg| > 0
    ensures Encrypt(e, reg, ([p] + a) + b)
         == Encrypt(e, reg, [p] + a) + Encrypt(e, After(reg, Encrypt(e, reg, [p] + a)), b)
    decreases |a| + 1, 0
  {
    hide Xor;
    var c := Xor(p, e(reg));
    var head := Encrypt(e, Shift(reg, c), a);
    assert ([p] + a) + b == [p] + (a + b);
    EncryptCons(e, reg, p, a + b);
    EncryptCons(e, reg, p, a);
    EncryptInPieces(e, Shift(reg, c), a, b);
    AfterCons(reg, c, head);
  }

  lemma {:induction false} AfterPieces(reg: Bytes, a: Bytes, b: Bytes)
    requires |reg| > 0
    ensures After(reg, a + b) == After(After(reg, a), b)
    decreases |a|
  {
    if a == [] {
      assert a + b == b;
    } else {
      assert (a + b)[1..] == a[1..] + b;
      AfterPieces(Shift(reg, a[0]), a[1..], b);
    }
  }

  /** Decrypting chunk by chunk is decrypting at once. */
  lemma {:induction false} DecryptInPieces(e: BlockByte, reg: Bytes, a: Bytes, b: Bytes)
    requires |reg| > 0
    ensures Decrypt(e, reg, a + b) == Decrypt(e, reg, a) + Decrypt(e, After(reg, a), b)
    decreases |a|
  {
    if a == [] {
      assert a + b == b;
    } else {
      assert (a + b)[1..] == a[1..] + b;
      DecryptInPieces(e, Shift(reg, a[0]), a[1..], b);
    }
  }

  /**
   * A receiver that has seen any prefix of the ciphertext of `accepted` has recovered exactly the
   * corresponding prefix of `accepted`.
   */
  lemma PrefixDelivered(e: BlockByte, reg: Bytes, accepted: Bytes, received: Bytes)
    requires |reg| > 0 && received <= Encrypt(e, reg, accepted)
    ensures Decrypt(e, reg, received) == accepted[..|received|]
  {
    var ct := Encrypt(e, reg, accepted);
    var rest := ct[|received|..];
    assert ct == received + rest;
    DecryptInPieces(e, reg, received, rest);
    DecryptUndoesEncrypt(e, reg, accepted);
  }
}
