/** Bytes and the fixed-width integers the wire formats use. */
module Bytes {

  newtype byte = x: int | 0 <= x < 256

  const TWO_32: int := 0x1_0000_0000
  const TWO_63: int := 0x8000_0000_0000_0000
  const TWO_64: int := 0x1_0000_0000_0000_0000

  type uint32 = x: int | 0 <= x < TWO_32
  type uint64 = x: int | 0 <= x < TWO_64
  type int64 = x: int | -TWO_63 <= x < TWO_63

  /** Two's-complement wrap-around of a 64-bit signed result. */
  function Wrap64(x: int): (r: int64)
    ensures -TWO_63 <= x < TWO_63 ==> r == x
  {
    (x + TWO_63) % TWO_64 - TWO_63
  }

  /** Reinterpretation of a signed 64-bit value as unsigned. */
  function Unsigned64(x: int64): (r: uint64)
    ensures x >= 0 ==> r == x
  {
    x % TWO_64
  }

  /** Wrapping around and reinterpreting change a number by whole turns of 2^64 only. */
  lemma WholeTurns(x: int, y: int64)
    ensures (Wrap64(x) - x) % TWO_64 == 0
    ensures (Unsigned64(y) - y) % TWO_64 == 0
  {
  }

  function FromBigEndian(s: seq<byte>): nat
  {
    if s == [] then 0 else 256 * FromBigEndian(s[..|s| - 1]) + s[|s| - 1] as int
  }

  function FromLittleEndian(s: seq<byte>): nat
  {
    if s == [] then 0 else s[0] as int + 256 * FromLittleEndian(s[1..])
  }

  function BigEndian32(n: uint32): (s: seq<byte>)
    ensures |s| == 4 && FromBigEndian(s) == n
  {
    var s := [(n / 0x100_0000) as byte, (n / 0x1_0000 % 256) as byte, (n / 256 % 256) as byte, (n % 256) as byte];
    BigEndianFour(s);
    Digits(n);
    s
  }

  function LittleEndian32(n: uint32): (s: seq<byte>)
    ensures |s| == 4 && FromLittleEndian(s) == n
  {
    var s := [(n % 256) as byte, (n / 256 % 256) as byte, (n / 0x1_0000 % 256) as byte, (n / 0x100_0000) as byte];
    LittleEndianFour(s);
    Digits(n);
    s
  }

  lemma Digits(n: nat)
    ensures n == 0x100_0000 * (n / 0x100_0000) + 0x1_0000 * (n / 0x1_0000 % 256) + 256 * (n / 256 % 256) + n % 256
  {
    assert n / 256 / 256 == n / 0x1_0000 && n / 0x1_0000 / 256 == n / 0x100_0000;
  }

  lemma BigEndianFour(s: seq<byte>)
    requires |s| == 4
    ensures FromBigEndian(s)
         == 0x100_0000 * s[0] as int + 0x1_0000 * s[1] as int + 256 * s[2] as int + s[3] as int
  {
    assert s[..3][..2] == s[..2] && s[..2][..1] == s[..1] && s[..1][..0] == [];
    assert FromBigEndian(s[..1]) == s[0] as int;
    assert FromBigEndian(s[..2]) == 256 * s[0] as int + s[1] as int;
    assert FromBigEndian(s[..3]) == 0x1_0000 * s[0] as int + 256 * s[1] as int + s[2] as int;
  }

  lemma LittleEndianFour(s: seq<byte>)
    requires |s| == 4
    ensures FromLittleEndian(s)
         == s[0] as int + 256 * s[1] as int + 0x1_0000 * s[2] as int + 0x100_0000 * s[3] as int
  {
    assert s[1..][1..] == s[2..] && s[2..][1..] == s[3..] && s[3..][1..] == [];
    assert FromLittleEndian(s[3..]) == s[3] as int;
    assert FromLittleEndian(s[2..]) == s[2] as int + 256 * s[3] as int;
    assert FromLittleEndian(s[1..]) == s[1] as int + 256 * s[2] as int + 0x1_0000 * s[3] as int;
  }

  function Pow256(k: nat): (p: nat)
    ensures p > 0
  {
    if k == 0 then 1 else 256 * Pow256(k - 1)
  }

  lemma {:induction false} BigEndianBound(s: seq<byte>)
    ensures FromBigEndian(s) < Pow256(|s|)
  {
    if s == [] {
    } else {
      BigEndianBound(s[..|s| - 1]);
    }
  }

  lemma {:induction false} LittleEndianBound(s: seq<byte>)
    ensures FromLittleEndian(s) < Pow256(|s|)
  {
    if s == [] {
    } else {
      LittleEndianBound(s[1..]);
    }
  }

  /** Concatenation of a list of byte strings. */
  function Concat(parts: seq<seq<byte>>): seq<byte>
  {
    if parts == [] then [] else parts[0] + Concat(parts[1..])
  }
}
