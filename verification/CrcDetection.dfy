/**
 Which corruptions the check finds: bursts of up to sixteen bits and odd numbers of flipped bits.
 Bits are numbered in the order the register takes them, lowest bit of each byte first.
 */
module CrcDetection {
  import opened CrcRegister
  import opened Crc16

  predicate Odd(x: bv16)
  {
    x & 1 == 1
  }

  function Half(x: bv16): bv16
  {
    x >> 1
  }

  function Double(x: bv16): bv16
  {
    x << 1
  }

  function Flip(c: bv16, e: bool): bv16
  {
    if e then c ^ 1 else c
  }

  /** The register after a string of bits. */
  function Feed(c: bv16, bits: seq<bool>): bv16
    decreases |bits|
  {
    if bits == [] then c else Feed(Shift(Flip(c, bits[0])), bits[1..])
  }

  /** The `n` lowest bits of a word, lowest first. */
  function OddBits(x: bv16, n: nat): (bits: seq<bool>)
    ensures |bits| == n
    decreases n
  {
    if n == 0 then [] else [Odd(x)] + OddBits(Half(x), n - 1)
  }

  /** The bits of a byte in the order the register takes them. */
  function ByteBits(b: bv8): (bits: seq<bool>)
    ensures |bits| == 8
  {
    OddBits(b as bv16, 8)
  }

  function Bits(s: seq<bv8>): (bits: seq<bool>)
    ensures |bits| == 8 * |s|
  {
    if s == [] then [] else Bits(s[..|s| - 1]) + ByteBits(s[|s| - 1])
  }

  /** Shifting a mixed register is feeding the lowest bit and mixing in the rest. */
  lemma FeedLowestBit(c: bv16, x: bv16)
    ensures Shift(Xor(c, x)) == Xor(Shift(Flip(c, Odd(x))), Half(x))
  {
    hide Shift, Xor, Flip, Odd, Half;
    FlipBoth(c, x, Odd(x));
    ShiftLinear(Flip(c, Odd(x)), Flip(x, Odd(x)));
    ShiftEven(x);
  }

  lemma FlipBoth(c: bv16, x: bv16, e: bool)
    ensures Xor(c, x) == Xor(Flip(c, e), Flip(x, e))
  {
    hide Xor, Flip;
    FlipIsXor(c, e);
    FlipIsXor(x, e);
    XorCancels(c, x, 1);
  }

  lemma ShiftEven(x: bv16)
    ensures Shift(Flip(x, Odd(x))) == Half(x)
  {
    LowestBit(x);
    if Odd(x) {
      LowestBitCleared(x);
    }
  }

  lemma LowestBitCleared(x: bv16)
    requires x & 1 == 1
    ensures (x ^ 1) & 1 == 0 && (x ^ 1) >> 1 == x >> 1
  {
  }

  function Halved(x: bv16, n: nat): bv16
    decreases n
  {
    if n == 0 then x else Halved(Half(x), n - 1)
  }

  function Shifts(c: bv16, n: nat): bv16
    decreases n
  {
    if n == 0 then c else Shifts(Shift(c), n - 1)
  }

  lemma {:induction false} FeedLowBits(c: bv16, x: bv16, n: nat)
    ensures Shifts(Xor(c, x), n) == Xor(Feed(c, OddBits(x, n)), Halved(x, n))
    decreases n
  {
    hide Shift, Xor, Odd, Half, Flip;
    if n == 0 {
    } else {
      FeedLowestBit(c, x);
      FeedLowBits(Shift(Flip(c, Odd(x))), Half(x), n - 1);
    }
  }

  lemma ByteExhausted(b: bv8)
    ensures Halved(b as bv16, 8) == 0
  {
  }

  lemma EightShifts(c: bv16)
    ensures Shifts(c, 8) == Shift8(c)
  {
    hide Shift;
  }

  lemma FeedByte(c: bv16, b: bv8)
    ensures Feed(c, ByteBits(b)) == Shift8(Mixed(c, b))
  {
    hide Shift8, Shifts, Feed, OddBits, Halved;
    FeedLowBits(c, b as bv16, 8);
    ByteExhausted(b);
    EightShifts(Mixed(c, b));
  }

  lemma {:induction false} FeedConcat(c: bv16, u: seq<bool>, v: seq<bool>)
    ensures Feed(c, u + v) == Feed(Feed(c, u), v)
    decreases |u|
  {
    hide Shift, Flip;
    if u == [] {
      assert u + v == v;
    } else {
      assert (u + v)[1..] == u[1..] + v;
      FeedConcat(Shift(Flip(c, u[0])), u[1..], v);
    }
  }

  lemma {:induction false} RunIsFeed(c: bv16, s: seq<bv8>)
    ensures Run(c, s) == Feed(c, Bits(s))
  {
    hide Shift8, Mixed, ByteBits;
    if s == [] {
    } else {
      var n := |s| - 1;
      RunIsFeed(c, s[..n]);
      FeedConcat(c, Bits(s[..n]), ByteBits(s[n]));
      FeedByte(Run(c, s[..n]), s[n]);
    }
  }

  lemma {:induction false} FeedInjective(c: bv16, d: bv16, u: seq<bool>)
    requires Feed(c, u) == Feed(d, u)
    ensures c == d
    decreases |u|
  {
    hide Shift, Flip;
    if u == [] {
    } else {
      FeedInjective(Shift(Flip(c, u[0])), Shift(Flip(d, u[0])), u[1..]);
      ShiftInjective(Flip(c, u[0]), Flip(d, u[0]));
      FlipInjective(c, d, u[0]);
    }
  }

  lemma FlipInjective(c: bv16, d: bv16, e: bool)
    requires Flip(c, e) == Flip(d, e)
    ensures c == d
  {
  }

  // ----- bursts

  /** The bits in which two strings of at most sixteen differ, as a number. */
  function Difference(u: seq<bool>, v: seq<bool>): bv16
    requires |u| == |v|
  {
    if u == [] then 0 else Flip(Double(Difference(u[1..], v[1..])), u[0] != v[0])
  }

  /** Everything from bit `n` up. */
  function Above(n: nat): bv16
  {
    if n == 0 then 0xFFFF else Double(Above(n - 1))
  }

  function And(x: bv16, y: bv16): bv16
  {
    x & y
  }

  lemma DoubledAnd(x: bv16, y: bv16)
    ensures And(Double(x), Double(y)) == Double(And(x, y))
  {
  }

  lemma LowestNotDoubled(x: bv16, y: bv16, e: bool)
    ensures And(Flip(x, e), Double(y)) == And(x, Double(y))
  {
  }

  lemma {:induction false} DifferenceFits(u: seq<bool>, v: seq<bool>)
    requires |u| == |v|
    ensures And(Difference(u, v), Above(|u|)) == 0
  {
    if u == [] {
    } else {
      assert Double(0) == 0;
      hide And, Flip, Double;
      var rest := Difference(u[1..], v[1..]);
      DifferenceFits(u[1..], v[1..]);
      LowestNotDoubled(Double(rest), Above(|u| - 1), u[0] != v[0]);
      DoubledAnd(rest, Above(|u| - 1));
    }
  }

  predicate HasTop(x: bv16)
  {
    x & 0x8000 == 0x8000
  }

  lemma TopIsAbove(n: nat)
    requires n <= 15
    ensures HasTop(Above(n))
  {
    match n
    case 0 => case 1 => case 2 => case 3 => case 4 => case 5 => case 6 => case 7 =>
    case 8 => case 9 => case 10 => case 11 => case 12 => case 13 => case 14 => case 15 =>
  }

  lemma DoublingUndone(x: bv16, above: bv16)
    requires And(x, above) == 0 && HasTop(above)
    ensures Shift(Double(x)) == x && (Double(x) == 0 ==> x == 0)
  {
  }

  lemma FlipIsXor(c: bv16, e: bool)
    ensures Flip(c, e) == if e then Xor(c, 1) else c
  {
  }

  lemma FlipsMeet(c: bv16, d: bv16, p: bool, q: bool)
    ensures Xor(Flip(c, p), Flip(d, q)) == Flip(Xor(c, d), p != q)
  {
    hide Xor, Flip;
    FlipIsXor(c, p);
    FlipIsXor(d, q);
    FlipIsXor(Xor(c, d), p != q);
    XorCancels(c, d, 1);
  }

  lemma FlipBack(x: bv16, y: bv16, e: bool)
    requires Flip(x, e) == y
    ensures x == Flip(y, e)
  {
  }

  /** Registers that two short strings bring together differed by the difference of the strings. */
  lemma {:induction false} MeetingRegisters(c: bv16, d: bv16, u: seq<bool>, v: seq<bool>)
    requires |u| == |v| <= 16 && Feed(c, u) == Feed(d, v)
    ensures Xor(c, d) == Difference(u, v)
    decreases |u|
  {
    if u == [] {
      XorSelf(c);
    } else {
      hide Shift, Flip, Xor, Double, And, HasTop;
      var fc, fd := Flip(c, u[0]), Flip(d, v[0]);
      var rest := Difference(u[1..], v[1..]);
      MeetingRegisters(Shift(fc), Shift(fd), u[1..], v[1..]);
      ShiftLinear(fc, fd);
      FlipsMeet(c, d, u[0], v[0]);
      DifferenceFits(u[1..], v[1..]);
      TopIsAbove(|u| - 1);
      DoublingUndone(rest, Above(|u| - 1));
      ShiftInjective(Xor(fc, fd), Double(rest));
      FlipBack(Xor(c, d), Double(rest), u[0] != v[0]);
    }
  }

  lemma XorSelf(c: bv16)
    ensures Xor(c, c) == 0
  {
  }

  lemma FlipZero(x: bv16, e: bool)
    requires Flip(Double(x), e) == 0
    ensures !e && Double(x) == 0
  {
  }

  lemma {:induction false} NoDifference(u: seq<bool>, v: seq<bool>)
    requires |u| == |v| <= 16 && Difference(u, v) == 0
    ensures u == v
  {
    if u == [] {
    } else {
      hide Flip, Double, And, HasTop;
      var rest := Difference(u[1..], v[1..]);
      FlipZero(rest, u[0] != v[0]);
      DifferenceFits(u[1..], v[1..]);
      TopIsAbove(|u| - 1);
      DoublingUndone(rest, Above(|u| - 1));
      NoDifference(u[1..], v[1..]);
      assert u == [u[0]] + u[1..] && v == [v[0]] + v[1..];
    }
  }

  lemma HalvesAndOddsTell(x: bv16, y: bv16)
    requires Odd(x) == Odd(y) && Half(x) == Half(y)
    ensures x == y
  {
  }

  lemma {:induction false} OddBitsInjective(x: bv16, y: bv16, n: nat)
    requires OddBits(x, n) == OddBits(y, n) && Halved(x, n) == Halved(y, n)
    ensures x == y
    decreases n
  {
    hide Odd, Half;
    if n == 0 {
    } else {
      assert OddBits(x, n)[0] == OddBits(y, n)[0];
      assert OddBits(x, n)[1..] == OddBits(Half(x), n - 1) && OddBits(y, n)[1..] == OddBits(Half(y), n - 1);
      OddBitsInjective(Half(x), Half(y), n - 1);
      HalvesAndOddsTell(x, y);
    }
  }

  lemma ByteBitsInjective(a: bv8, b: bv8)
    requires ByteBits(a) == ByteBits(b)
    ensures a == b
  {
    hide OddBits, Halved;
    ByteExhausted(a);
    ByteExhausted(b);
    OddBitsInjective(a as bv16, b as bv16, 8);
  }

  lemma {:induction false} BitsInjective(x: seq<bv8>, y: seq<bv8>)
    requires |x| == |y| && Bits(x) == Bits(y)
    ensures x == y
  {
    hide ByteBits;
    if x == [] {
    } else {
      var n := |x| - 1;
      assert Bits(x)[..8 * n] == Bits(x[..n]) && Bits(y)[..8 * n] == Bits(y[..n]);
      assert Bits(x)[8 * n..] == ByteBits(x[n]) && Bits(y)[8 * n..] == ByteBits(y[n]);
      BitsInjective(x[..n], y[..n]);
      ByteBitsInjective(x[n], y[n]);
    }
  }

  /** The two bit strings agree outside sixteen consecutive positions. */
  predicate AgreeOutside(u: seq<bool>, v: seq<bool>, start: nat)
    requires |u| == |v|
  {
    forall j :: 0 <= j < |u| && !(start <= j < start + 16) ==> u[j] == v[j]
  }

  lemma BurstParts(c: bv16, a: seq<bool>, u: seq<bool>, v: seq<bool>, z: seq<bool>)
    requires |u| == |v| <= 16 && Feed(c, a + (u + z)) == Feed(c, a + (v + z))
    ensures u == v
  {
    hide Feed, Difference;
    var c1 := Feed(c, a);
    FeedConcat(c, a, u + z);
    FeedConcat(c, a, v + z);
    FeedConcat(c1, u, z);
    FeedConcat(c1, v, z);
    FeedInjective(Feed(c1, u), Feed(c1, v), z);
    MeetingRegisters(c1, c1, u, v);
    XorSelf(c1);
    NoDifference(u, v);
  }

  lemma ThreeParts(u: seq<bool>, from: nat, to: nat)
    requires from <= to <= |u|
    ensures u == u[..from] + (u[from..to] + u[to..])
  {
  }

  lemma BurstStrings(c: bv16, u: seq<bool>, v: seq<bool>, start: nat)
    requires |u| == |v| && AgreeOutside(u, v, start) && Feed(c, u) == Feed(c, v)
    ensures u == v
  {
    hide Feed;
    var from := if start <= |u| then start else |u|;
    var to := if start + 16 <= |u| then start + 16 else |u|;
    assert u[..from] == v[..from];
    assert u[to..] == v[to..];
    ThreeParts(u, from, to);
    ThreeParts(v, from, to);
    BurstParts(c, u[..from], u[from..to], v[from..to], u[to..]);
  }

  /** Of frames that differ only within sixteen consecutive bits, anywhere, at most one is accepted. */
  lemma BurstDetected(x: seq<bv8>, y: seq<bv8>, start: nat)
    requires |x| == |y| && AgreeOutside(Bits(x), Bits(y), start)
    requires Accepted(x) && Accepted(y)
    ensures x == y
  {
    hide Feed, Run;
    AcceptedMeansZero(x);
    AcceptedMeansZero(y);
    RunIsFeed(0xFFFF, x);
    RunIsFeed(0xFFFF, y);
    BurstStrings(0xFFFF, Bits(x), Bits(y), start);
    BitsInjective(x, y);
  }

  /** In particular none of two frames that differ only within two adjacent bytes. */
  lemma AdjacentBytesDetected(x: seq<bv8>, y: seq<bv8>, at: nat)
    requires |x| == |y| && forall i :: 0 <= i < |x| && i != at && i != at + 1 ==> x[i] == y[i]
    requires Accepted(x) && Accepted(y)
    ensures x == y
  {
    forall j | 0 <= j < 8 * |x| && !(8 * at <= j < 8 * at + 16)
      ensures Bits(x)[j] == Bits(y)[j]
    {
      BitAt(x, j);
      BitAt(y, j);
      assert x[j / 8] == y[j / 8];
    }
    BurstDetected(x, y, 8 * at);
  }

  lemma {:induction false} BitAt(s: seq<bv8>, j: nat)
    requires j < 8 * |s|
    ensures Bits(s)[j] == ByteBits(s[j / 8])[j % 8]
  {
    hide ByteBits;
    var n := |s| - 1;
    if 8 * n <= j {
      assert Bits(s)[j] == ByteBits(s[n])[j - 8 * n];
    } else {
      BitAt(s[..n], j);
    }
  }

  // ----- odd numbers of flipped bits

  /** Whether an odd number of the `n` lowest bits of `c` is set. */
  predicate Parity(c: bv16, n: nat)
    decreases n
  {
    if n == 0 then false else Odd(c) != Parity(Half(c), n - 1)
  }

  predicate OddOnes(c: bv16)
  {
    Parity(c, 16)
  }

  lemma OddXor(p: bv16, q: bv16)
    ensures Odd(Xor(p, q)) == (Odd(p) != Odd(q))
  {
    XorBit(p, q);
    LowestBit(p);
    LowestBit(q);
  }

  lemma HalfXor(p: bv16, q: bv16)
    ensures Half(Xor(p, q)) == Xor(Half(p), Half(q))
  {
    XorShift(p, q);
  }

  lemma {:induction false} ParityLinear(p: bv16, q: bv16, n: nat)
    ensures Parity(Xor(p, q), n) == (Parity(p, n) != Parity(q, n))
    decreases n
  {
    hide Xor, Odd, Half;
    if n == 0 {
    } else {
      OddXor(p, q);
      HalfXor(p, q);
      ParityLinear(Half(p), Half(q), n - 1);
    }
  }

  lemma {:induction false} ParityLast(c: bv16, n: nat)
    ensures Parity(c, n + 1) == (Parity(c, n) != Odd(Halved(c, n)))
    decreases n
  {
    hide Odd, Half;
    if n == 0 {
    } else {
      ParityLast(Half(c), n - 1);
    }
  }

  lemma NothingLeft(c: bv16)
    ensures !Odd(Halved(Half(c), 15))
  {
  }

  lemma PolynomialIsOdd()
    ensures OddOnes(0xA001)
  {
    assert Parity(0x2, 2);
    assert !Parity(0xA, 4);
    assert !Parity(0x28, 6);
    assert !Parity(0xA0, 8);
    assert !Parity(0x280, 10);
    assert !Parity(0xA00, 12);
    assert !Parity(0x2800, 14);
  }

  lemma ShiftAsXor(c: bv16)
    ensures Shift(c) == if Odd(c) then Xor(Half(c), 0xA001) else Half(c)
  {
  }

  lemma ShiftKeepsParity(c: bv16)
    ensures OddOnes(Shift(c)) == OddOnes(c)
  {
    PolynomialIsOdd();
    hide Shift, Xor, Odd, Half, Halved;
    ShiftAsXor(c);
    ParityLinear(Half(c), 0xA001, 16);
    ParityLast(Half(c), 15);
    NothingLeft(c);
  }

  lemma KnownParities()
    ensures OddOnes(1) && !OddOnes(0) && !OddOnes(0xFFFF)
  {
    assert !Parity(0, 2);
    assert !Parity(0, 4);
    assert !Parity(0, 6);
    assert !Parity(0, 8);
    assert !Parity(0, 10);
    assert !Parity(0, 12);
    assert !Parity(0, 14);
    assert !Parity(0x3, 2);
    assert !Parity(0xF, 4);
    assert !Parity(0x3F, 6);
    assert !Parity(0xFF, 8);
    assert !Parity(0x3FF, 10);
    assert !Parity(0xFFF, 12);
    assert !Parity(0x3FFF, 14);
  }

  lemma FlipTurnsParity(c: bv16, e: bool)
    ensures OddOnes(Flip(c, e)) == (OddOnes(c) != e)
  {
    hide Xor, Odd, Half, Flip;
    KnownParities();
    FlipIsXor(c, e);
    ParityLinear(c, 1, 16);
  }

  function Ones(u: seq<bool>): nat
  {
    if u == [] then 0 else (if u[0] then 1 else 0) + Ones(u[1..])
  }

  lemma {:induction false} FeedParity(c: bv16, u: seq<bool>)
    ensures OddOnes(Feed(c, u)) == (OddOnes(c) != (Ones(u) % 2 == 1))
    decreases |u|
  {
    hide Shift, Flip, OddOnes;
    if u == [] {
    } else {
      var c1 := Flip(c, u[0]);
      FeedParity(Shift(c1), u[1..]);
      ShiftKeepsParity(c1);
      FlipTurnsParity(c, u[0]);
    }
  }

  /** An accepted frame has an even number of one bits. */
  lemma AcceptedHasEvenOnes(frame: seq<bv8>)
    requires Accepted(frame)
    ensures Ones(Bits(frame)) % 2 == 0
  {
    hide OddOnes, Run, Feed;
    KnownParities();
    AcceptedMeansZero(frame);
    RunIsFeed(0xFFFF, frame);
    FeedParity(0xFFFF, Bits(frame));
  }

  /** In how many positions two bit strings differ. */
  function Distance(u: seq<bool>, v: seq<bool>): nat
    requires |u| == |v|
  {
    if u == [] then 0 else (if u[0] != v[0] then 1 else 0) + Distance(u[1..], v[1..])
  }

  lemma {:induction false} DistanceParity(u: seq<bool>, v: seq<bool>)
    requires |u| == |v|
    ensures (Distance(u, v) + Ones(u) + Ones(v)) % 2 == 0
  {
    if u == [] {
    } else {
      DistanceParity(u[1..], v[1..]);
    }
  }

  /** An odd number of flipped bits, wherever they are, turns an accepted frame into a rejected one. */
  lemma OddFlipsDetected(x: seq<bv8>, y: seq<bv8>)
    requires |x| == |y| && Distance(Bits(x), Bits(y)) % 2 == 1
    requires Accepted(x)
    ensures !Accepted(y)
  {
    hide Accepted, Bits, Ones, Distance;
    AcceptedHasEvenOnes(x);
    DistanceParity(Bits(x), Bits(y));
    if Accepted(y) {
      AcceptedHasEvenOnes(y);
    }
  }
}
