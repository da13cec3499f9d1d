/**
 * Bytes, big-endian integers and ledger addresses, as the backend uses them
 * through the `byteorder` crate (`BigEndian::read_u64`) and the `web3` crate
 * (`Address`, a 20-byte value whose default is all zeros).
 */
module Primitives {

  newtype Byte = b: int | 0 <= b < 256

  /** 256 to the power `n`: the number of distinct `n`-byte strings. */
  function Pow256(n: nat): (p: nat)
    ensures p >= 1
  {
    if n == 0 then 1 else 256 * Pow256(n - 1)
  }

  /** 2^64: one more than the largest `u64`. */
  const U64Modulus: nat := 0x1_0000_0000_0000_0000

  /** 2^256: one more than the largest Solidity `uint256`. */
  const Word256Modulus: nat := Pow256(32)

  lemma {:induction false} Pow256Constants()
    ensures Pow256(8) == U64Modulus
    ensures U64Modulus < Word256Modulus
  {
    assert Pow256(4) == 0x1_0000_0000;
    assert Pow256(8) == U64Modulus;
    Pow256Monotone(9, 32);
  }

  lemma {:induction false} Pow256Monotone(a: nat, b: nat)
    requires a <= b
    ensures Pow256(a) <= Pow256(b)
  {
    if a < b {
      Pow256Monotone(a, b - 1);
    }
  }

  /** The unsigned value of `s` read most significant byte first. */
  function BigEndian(s: seq<Byte>): (v: nat)
    ensures v < Pow256(|s|)
  {
    if s == [] then 0 else BigEndian(s[..|s| - 1]) * 256 + s[|s| - 1] as nat
  }

  /** The `n`-byte big-endian representation of `v`. */
  function BigEndianBytes(v: nat, n: nat): (s: seq<Byte>)
    requires v < Pow256(n)
    ensures |s| == n
    ensures BigEndian(s) == v
  {
    if n == 0 then []
    else
      var prefix := BigEndianBytes(v / 256, n - 1);
      var s := prefix + [(v % 256) as Byte];
      assert s[..|s| - 1] == prefix;
      s
  }

  /** Every byte string is the representation of its own value: reading is injective. */
  lemma {:induction false} BigEndianBytesOfValue(s: seq<Byte>)
    ensures BigEndianBytes(BigEndian(s), |s|) == s
  {
    if s != [] {
      var n := |s|;
      var prefix := s[..n - 1];
      BigEndianBytesOfValue(prefix);
      var v := BigEndian(s);
      assert v / 256 == BigEndian(prefix);
      assert v % 256 == s[n - 1] as nat;
      assert s == prefix + [s[n - 1]];
    }
  }

  /** Splitting a byte string splits its value: the high part is scaled by the width of the low part. */
  lemma {:induction false} BigEndianAppend(hi: seq<Byte>, lo: seq<Byte>)
    ensures BigEndian(hi + lo) == BigEndian(hi) * Pow256(|lo|) + BigEndian(lo)
  {
    if lo == [] {
      assert hi + lo == hi;
    } else {
      var n := |lo|;
      var lo' := lo[..n - 1];
      BigEndianAppend(hi, lo');
      assert (hi + lo)[..|hi + lo| - 1] == hi + lo';
      calc {
        BigEndian(hi + lo);
        BigEndian(hi + lo') * 256 + lo[n - 1] as nat;
        (BigEndian(hi) * Pow256(n - 1) + BigEndian(lo')) * 256 + lo[n - 1] as nat;
        { ScaleByByte(BigEndian(hi), Pow256(n - 1), Pow256(n)); }
        BigEndian(hi) * Pow256(n) + BigEndian(lo);
      }
    }
  }

  lemma {:induction false} ScaleByByte(x: nat, p: nat, q: nat)
    requires q == 256 * p
    ensures x * p * 256 == x * q
  {
  }

  /**
   * `BigEndian::read_u64`: the first eight bytes of the buffer as a `u64`
   * (the crate panics on a shorter buffer).
   */
  function ReadU64(buf: seq<Byte>): (v: nat)
    requires |buf| >= 8
    ensures v < U64Modulus
    ensures BigEndianBytes(v, 8) == buf[..8]
  {
    Pow256Constants();
    BigEndianBytesOfValue(buf[..8]);
    BigEndian(buf[..8])
  }

  /** The low eight bytes of a big-endian word hold the word's value modulo 2^64. */
  lemma {:induction false} LowBytesModulo(w: seq<Byte>)
    requires |w| >= 8
    ensures BigEndian(w[|w| - 8..]) == BigEndian(w) % U64Modulus
  {
    var hi, lo := w[..|w| - 8], w[|w| - 8..];
    assert w == hi + lo;
    BigEndianAppend(hi, lo);
    Pow256Constants();
    ModuloOfShifted(BigEndian(w), BigEndian(hi), BigEndian(lo));
  }

  lemma {:induction false} SmallModulo(x: nat, m: nat)
    requires x < m
    ensures x % m == x
  {
  }

  lemma {:induction false} ModuloOfShifted(x: nat, q: nat, r: nat)
    requires x == q * U64Modulus + r && r < U64Modulus
    ensures x % U64Modulus == r
  {
  }

  type Address = s: seq<Byte> | |s| == 20 witness seq(20, _ => 0 as Byte)

  /** `Address::default()` and `Address::zero()`: twenty zero bytes. */
  const ZeroAddress: Address := [0, 0, 0, 0, 0, 0, 0, 0, 0, 0, 0, 0, 0, 0, 0, 0, 0, 0, 0, 0]
}
