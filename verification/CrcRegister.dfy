/**
 The CRC-16 shift register: reflected polynomial 0xA001, initial value 0xFFFF, as in section 6.2.2
 of the MODBUS over Serial Line Specification and Implementation Guide V1.02.
 */
module CrcRegister {

  /** One shift of the register. */
  function Shift(c: bv16): bv16
  {
    if c & 1 == 1 then (c >> 1) ^ 0xA001 else c >> 1
  }

  function Shift2(c: bv16): bv16
  {
    Shift(Shift(c))
  }

  function Shift4(c: bv16): bv16
  {
    Shift2(Shift2(c))
  }

  /** Eight shifts: one byte's worth. */
  function Shift8(c: bv16): bv16
  {
    Shift4(Shift4(c))
  }

  /** The register about to be shifted for byte `b`. */
  function Mixed(c: bv16, b: bv8): bv16
  {
    c ^ (b as bv16)
  }

  /** The register after a byte string, started from `c`. */
  function Run(c: bv16, s: seq<bv8>): bv16
  {
    if s == [] then c else Shift8(Mixed(Run(c, s[..|s| - 1]), s[|s| - 1]))
  }

  /** The checksum of a byte string. */
  function Crc(s: seq<bv8>): bv16
  {
    Run(0xFFFF, s)
  }

  /** A register put together from its two bytes. */
  function Join(low: bv8, high: bv8): bv16
  {
    ((high as bv16) << 8) | (low as bv16)
  }

  function Low(c: bv16): bv8
  {
    (c & 0xFF) as bv8
  }

  function High(c: bv16): bv8
  {
    (c >> 8) as bv8
  }

  // ----- algebra of the register

  function Xor(p: bv16, q: bv16): bv16
  {
    p ^ q
  }

  lemma ShiftLinear(p: bv16, q: bv16)
    ensures Shift(Xor(p, q)) == Xor(Shift(p), Shift(q))
  {
    XorShift(p, q);
    XorBit(p, q);
    LowestBit(p);
    LowestBit(q);
    XorMove(p >> 1, q >> 1, 0xA001);
  }

  lemma XorShift(p: bv16, q: bv16)
    ensures (p ^ q) >> 1 == (p >> 1) ^ (q >> 1)
  {
  }

  lemma XorBit(p: bv16, q: bv16)
    ensures (p ^ q) & 1 == (p & 1) ^ (q & 1)
  {
  }

  lemma LowestBit(p: bv16)
    ensures p & 1 == 0 || p & 1 == 1
  {
  }

  lemma XorMove(a: bv16, b: bv16, k: bv16)
    ensures (a ^ k) ^ (b ^ k) == a ^ b && (a ^ k) ^ b == (a ^ b) ^ k && a ^ (b ^ k) == (a ^ b) ^ k
  {
  }

  lemma XorCommutes(a: bv16, b: bv16, k: bv16)
    ensures Xor(Xor(a, k), b) == Xor(Xor(a, b), k)
  {
  }

  lemma XorAssociates(a: bv16, b: bv16, k: bv16)
    ensures Xor(Xor(a, b), k) == Xor(a, Xor(b, k))
  {
  }

  lemma XorTwice(a: bv16, k: bv16)
    ensures Xor(Xor(a, k), k) == a
  {
  }

  lemma XorCancels(a: bv16, b: bv16, k: bv16)
    ensures Xor(Xor(a, k), Xor(b, k)) == Xor(a, b)
    ensures Xor(Xor(a, k), b) == Xor(Xor(a, b), k) == Xor(a, Xor(b, k))
  {
    hide Xor;
    XorCommutes(a, b, k);
    XorAssociates(a, b, k);
    XorAssociates(Xor(a, k), b, k);
    XorTwice(Xor(a, b), k);
  }

  lemma ShiftInjective(p: bv16, q: bv16)
    requires Shift(p) == Shift(q)
    ensures p == q
  {
  }

  lemma Shift2Linear(p: bv16, q: bv16)
    ensures Shift2(Xor(p, q)) == Xor(Shift2(p), Shift2(q))
  {
    hide Shift, Xor;
    ShiftLinear(p, q);
    ShiftLinear(Shift(p), Shift(q));
  }

  lemma Shift4Linear(p: bv16, q: bv16)
    ensures Shift4(Xor(p, q)) == Xor(Shift4(p), Shift4(q))
  {
    hide Shift2, Xor;
    Shift2Linear(p, q);
    Shift2Linear(Shift2(p), Shift2(q));
  }

  lemma Shift8Linear(p: bv16, q: bv16)
    ensures Shift8(Xor(p, q)) == Xor(Shift8(p), Shift8(q))
  {
    hide Shift4, Xor;
    Shift4Linear(p, q);
    Shift4Linear(Shift4(p), Shift4(q));
  }

  lemma Shift2Injective(p: bv16, q: bv16)
    requires Shift2(p) == Shift2(q)
    ensures p == q
  {
    hide Shift;
    ShiftInjective(Shift(p), Shift(q));
    ShiftInjective(p, q);
  }

  lemma Shift4Injective(p: bv16, q: bv16)
    requires Shift4(p) == Shift4(q)
    ensures p == q
  {
    hide Shift2;
    Shift2Injective(Shift2(p), Shift2(q));
    Shift2Injective(p, q);
  }

  lemma Shift8Injective(p: bv16, q: bv16)
    requires Shift8(p) == Shift8(q)
    ensures p == q
  {
    hide Shift4;
    Shift4Injective(Shift4(p), Shift4(q));
    Shift4Injective(p, q);
  }

  lemma {:induction false} RunOn(c: bv16, a: seq<bv8>, b: seq<bv8>)
    ensures Run(c, a + b) == Run(Run(c, a), b)
    decreases |b|
  {
    hide Shift8, Mixed;
    if b == [] {
      assert a + b == a;
    } else {
      var n := |b| - 1;
      assert (a + b)[..|a + b| - 1] == a + b[..n];
      RunOn(c, a, b[..n]);
    }
  }

  /** A register whose low byte is clear is only shifted down. */
  lemma Shift8OfHigh(y: bv16)
    requires y <= 0xFF
    ensures Shift8(y << 8) == y
  {
  }
}
