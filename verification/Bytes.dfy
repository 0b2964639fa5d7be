/** Bytes, fixed-width values and the big-endian 64-bit integers of the wire forms. */
module Bytes {
  type byte = bv8
  type bytes = seq<byte>

  /** The source's `[u8; 32]`: SHA-256 digests and Ed25519 public keys. */
  type Bytes32 = s: bytes | |s| == 32 witness seq(32, _ => 0)

  function Zeros(n: nat): bytes { seq(n, _ => 0) }

  /** The source's `u64`. */
  type u64 = n: nat | n < 0x1_0000_0000_0000_0000

  // A byte as a number, one binary digit at a time.

  function Join(high: byte, low: bool): byte { (high << 1) | (if low then 1 else 0) }

  function HalfByte(b: byte): byte { b >> 1 }

  predicate OddByte(b: byte) { b & 1 != 0 }

  /** Only the `k` low bits of `b` may be set. */
  predicate Fits(b: byte, k: nat) {
    b <= match k
         case 0 => 0x00
         case 1 => 0x01
         case 2 => 0x03
         case 3 => 0x07
         case 4 => 0x0f
         case 5 => 0x1f
         case 6 => 0x3f
         case 7 => 0x7f
         case _ => 0xff
  }

  lemma FitsJoin(b: byte, k: nat, low: bool)
    requires k < 8 && Fits(b, k)
    ensures Fits(Join(b, low), k + 1) && HalfByte(Join(b, low)) == b && OddByte(Join(b, low)) == low
  {
  }

  lemma FitsHalf(b: byte, k: nat)
    requires k < 8 && Fits(b, k + 1)
    ensures Fits(HalfByte(b), k) && Join(HalfByte(b), OddByte(b)) == b
  {
  }

  lemma FitsNone(b: byte)
    ensures Fits(b, 0) <==> b == 0
    ensures Fits(b, 8)
  {
  }

  /** The byte whose `k` low bits spell `n`. */
  function Spell(n: nat, k: nat): byte
    decreases k
  {
    if k == 0 then 0 else Join(Spell(n / 2, k - 1), n % 2 == 1)
  }

  function Read(b: byte, k: nat): nat
    decreases k
  {
    if k == 0 then 0 else 2 * Read(HalfByte(b), k - 1) + (if OddByte(b) then 1 else 0)
  }

  function ByteOf(n: nat): byte
    requires n < 256
  {
    Spell(n, 8)
  }

  function IntOf(b: byte): nat {
    Read(b, 8)
  }

  function Pow2(k: nat): nat {
    if k == 0 then 1 else 2 * Pow2(k - 1)
  }

  lemma {:induction false} ReadSpell(n: nat, k: nat)
    requires k <= 8 && n < Pow2(k)
    ensures Fits(Spell(n, k), k) && Read(Spell(n, k), k) == n
    decreases k
  {
    hide Join, HalfByte, OddByte, Fits;
    if k == 0 {
      FitsNone(0);
    } else {
      ReadSpell(n / 2, k - 1);
      FitsJoin(Spell(n / 2, k - 1), k - 1, n % 2 == 1);
    }
  }

  lemma {:induction false} SpellRead(b: byte, k: nat)
    requires k <= 8 && Fits(b, k)
    ensures Read(b, k) < Pow2(k) && Spell(Read(b, k), k) == b
    decreases k
  {
    hide Join, HalfByte, OddByte, Fits;
    if k == 0 {
      FitsNone(b);
    } else {
      FitsHalf(b, k - 1);
      SpellRead(HalfByte(b), k - 1);
      var half, n := Read(HalfByte(b), k - 1), Read(b, k);
      assert n == 2 * half + (if OddByte(b) then 1 else 0);
      assert n / 2 == half && (n % 2 == 1) == OddByte(b);
      assert Spell(n, k) == Join(Spell(half, k - 1), OddByte(b));
    }
  }

  lemma Pow2Of8()
    ensures Pow2(8) == 256
  {
  }

  lemma ByteRoundTrip(b: byte)
    ensures IntOf(b) < 256 && ByteOf(IntOf(b)) == b
  {
    hide Fits, Read, Spell;
    FitsNone(b);
    Pow2Of8();
    SpellRead(b, 8);
  }

  lemma IntRoundTrip(n: nat)
    requires n < 256
    ensures IntOf(ByteOf(n)) == n
  {
    hide Fits, Read, Spell;
    Pow2Of8();
    ReadSpell(n, 8);
  }

  function Pow256(k: nat): (p: nat)
    ensures p > 0
  {
    if k == 0 then 1 else 256 * Pow256(k - 1)
  }

  /** The `k` low base-256 digits of `n`, most significant first. */
  function BigEndian(n: nat, k: nat): (s: bytes)
    ensures |s| == k
  {
    if k == 0 then [] else BigEndian(n / 256, k - 1) + [ByteOf(n % 256)]
  }

  function FromBigEndian(s: bytes): nat {
    if s == [] then 0 else FromBigEndian(s[..|s| - 1]) * 256 + IntOf(s[|s| - 1])
  }

  lemma {:induction false} FromBigEndianBound(s: bytes)
    ensures FromBigEndian(s) < Pow256(|s|)
  {
    if s != [] {
      FromBigEndianBound(s[..|s| - 1]);
      hide IntOf, ByteOf;
      ByteRoundTrip(s[|s| - 1]);
    }
  }

  lemma {:induction false} DecodeEncodeBigEndian(n: nat, k: nat)
    requires n < Pow256(k)
    ensures FromBigEndian(BigEndian(n, k)) == n
  {
    if k != 0 {
      hide IntOf, ByteOf, FromBigEndian;
      DecodeEncodeBigEndian(n / 256, k - 1);
      LastDigit(BigEndian(n / 256, k - 1), ByteOf(n % 256));
      IntRoundTrip(n % 256);
    }
    NoDigits();
  }

  lemma LastDigit(s: bytes, b: byte)
    ensures FromBigEndian(s + [b]) == FromBigEndian(s) * 256 + IntOf(b)
  {
    hide IntOf;
    assert (s + [b])[..|s|] == s;
  }

  lemma NoDigits()
    ensures FromBigEndian([]) == 0
  {
  }

  lemma {:induction false} EncodeDecodeBigEndian(s: bytes)
    ensures BigEndian(FromBigEndian(s), |s|) == s
  {
    if s != [] {
      var front, last := s[..|s| - 1], s[|s| - 1];
      hide IntOf, ByteOf;
      EncodeDecodeBigEndian(front);
      ByteRoundTrip(last);
      var n := FromBigEndian(s);
      assert n / 256 == FromBigEndian(front) && n % 256 == IntOf(last);
    }
  }

  lemma Pow256Of8()
    ensures Pow256(8) == 0x1_0000_0000_0000_0000
  {
  }

  /** `u64::to_be_bytes`. */
  function Be64(n: u64): (s: bytes)
    ensures |s| == 8
  {
    BigEndian(n, 8)
  }

  /** `u64::from_be_bytes`. */
  function FromBe64(s: bytes): (n: u64)
    requires |s| == 8
    ensures Be64(n) == s
  {
    FromBigEndianBound(s);
    Pow256Of8();
    EncodeDecodeBigEndian(s);
    FromBigEndian(s)
  }

  lemma Be64RoundTrip(n: u64)
    ensures FromBe64(Be64(n)) == n
  {
    Pow256Of8();
    DecodeEncodeBigEndian(n, 8);
  }

  lemma Be64Injective(m: u64, n: u64)
    requires Be64(m) == Be64(n)
    ensures m == n
  {
    Be64RoundTrip(m);
    Be64RoundTrip(n);
  }
}
