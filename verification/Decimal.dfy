/**
 The two decimal printers: one fills a fixed array from its end, the other appends to a slice in
 place with shortcuts for the common widths. Both are proved against one definition.
 */
module Decimal {
  import opened Bytes
  import opened Options

  function Digit(d: nat): char
    requires d < 10
  {
    (48 + d) as char
  }

  /** The decimal digits of a number, most significant first. */
  function Digits(u: nat): (s: string)
    ensures |s| >= 1
  {
    if u < 10 then [Digit(u)] else Digits(u / 10) + [Digit(u % 10)]
  }

  function Zeros(n: int): (s: string)
    ensures |s| == if n > 0 then n else 0
  {
    seq(if n > 0 then n else 0, _ => '0')
  }

  /** The digits with leading zeros up to a width. */
  function Padded(u: nat, width: int): (s: string)
    ensures |s| == if width > |Digits(u)| then width else |Digits(u)|
  {
    Zeros(width - |Digits(u)|) + Digits(u)
  }

  predicate IsDigit(c: char)
  {
    '0' <= c <= '9'
  }

  /** The number a string of digits spells. */
  function Value(s: string): nat
    requires forall c <- s :: IsDigit(c)
  {
    if s == [] then
      0
    else
      var c := s[|s| - 1];
      assert c in s && IsDigit(c);
      10 * Value(s[..|s| - 1]) + (c as int - 48)
  }

  lemma {:induction false} DigitsSpell(u: nat)
    ensures forall c <- Digits(u) :: IsDigit(c)
    ensures Value(Digits(u)) == u
  {
    if u >= 10 {
      DigitsSpell(u / 10);
      assert Digits(u)[..|Digits(u)| - 1] == Digits(u / 10);
    } else {
      assert Digits(u)[..0] == [];
    }
  }

  function Pow10(n: nat): nat
  {
    if n == 0 then 1 else 10 * Pow10(n - 1)
  }

  /** The digits of a number are no more than it needs: the first is zero for zero alone. */
  lemma {:induction false} NoLeadingZero(u: nat)
    ensures Digits(u)[0] == '0' <==> u == 0
    ensures Pow10(|Digits(u)| - 1) <= u < Pow10(|Digits(u)|) || (u == 0 && |Digits(u)| == 1)
  {
    if u < 10 {
      assert Pow10(0) == 1 && Pow10(1) == 10;
    } else {
      NoLeadingZero(u / 10);
      var n := |Digits(u / 10)|;
      assert |Digits(u)| == n + 1 && Pow10(n + 1) == 10 * Pow10(n) && Pow10(n) == 10 * Pow10(n - 1);
    }
  }

  lemma {:induction false} ZerosSpell(n: nat)
    ensures forall c <- Zeros(n) :: IsDigit(c)
    ensures Value(Zeros(n)) == 0
  {
    if n == 0 {
    } else {
      ZerosSpell(n - 1);
      assert Zeros(n)[..n - 1] == Zeros(n - 1);
    }
  }

  lemma {:induction false} ValueAfterZeros(n: nat, s: string)
    requires forall c <- s :: IsDigit(c)
    ensures forall c <- Zeros(n) + s :: IsDigit(c)
    ensures Value(Zeros(n) + s) == Value(s)
  {
    ZerosSpell(n);
    if s == [] {
      assert Zeros(n) + s == Zeros(n);
    } else {
      var m := |s| - 1;
      ValueAfterZeros(n, s[..m]);
      assert (Zeros(n) + s)[..|Zeros(n) + s| - 1] == Zeros(n) + s[..m];
    }
  }

  /** What is printed reads back as the number, whatever the width. */
  lemma PaddedSpells(u: nat, width: int)
    ensures forall c <- Padded(u, width) :: IsDigit(c)
    ensures Value(Padded(u, width)) == u
  {
    DigitsSpell(u);
    var n := if width > |Digits(u)| then width - |Digits(u)| else 0;
    ValueAfterZeros(n, Digits(u));
    assert Zeros(width - |Digits(u)|) == Zeros(n);
  }

  /** Distinct numbers have distinct decimal strings. */
  lemma DigitsInjective(u: nat, v: nat)
    requires Digits(u) == Digits(v)
    ensures u == v
  {
    DigitsSpell(u);
    DigitsSpell(v);
  }

  /** What a 64-bit number needs. */
  lemma {:induction false} DigitCount(u: nat, n: nat)
    requires 1 <= n && u < Pow10(n)
    ensures |Digits(u)| <= n
  {
    if u < 10 {
    } else {
      DigitCount(u / 10, n - 1);
    }
  }

  lemma TwentyDigits(u: uint64)
    ensures |Digits(u)| <= 20
  {
    assert Pow10(5) == 100000;
    assert Pow10(10) == 10000000000;
    assert Pow10(15) == 1000000000000000;
    assert Pow10(20) == 100000000000000000000;
    DigitCount(u, 20);
  }

  /** The last digits of the padded number, as the loop has written them. */
  lemma PaddedStep(u: nat, width: int)
    requires u >= 10 || width > 1
    ensures Padded(u, width) == Padded(u / 10, width - 1) + [Digit(u % 10)]
  {
    if u >= 10 {
      assert Zeros(width - |Digits(u)|) == Zeros(width - 1 - |Digits(u / 10)|);
    } else {
      assert Digits(0) == [Digit(0)];
      assert Zeros(width - 1) == Zeros(width - 1 - 1) + [Digit(0)];
    }
  }

  /** What is still to be written in front when the loop has come down to `u` and `width`. */
  function ToWrite(u: nat, width: int): (s: string)
    ensures s == [] <==> u == 0 && width <= 0
  {
    if u == 0 && width <= 0 then [] else Padded(u, width)
  }

  lemma ToWriteStep(u: nat, width: int)
    requires u > 0 || width > 0
    ensures ToWrite(u, width) == ToWrite(u / 10, width - 1) + [Digit(u % 10)]
  {
    if u >= 10 || width > 1 {
      PaddedStep(u, width);
    } else {
      assert Padded(u, width) == [Digit(u)];
    }
  }

  lemma WriteOne(u: nat, width: int, written: string)
    requires u > 0 || width > 0
    ensures ToWrite(u, width) + written == ToWrite(u / 10, width - 1) + ([Digit(u % 10)] + written)
  {
    hide ToWrite, Digit;
    ToWriteStep(u, width);
  }

  /** Taking the digits of `u` off the width leaves the 64-bit range below. */
  predicate Underflows(u: nat, width: int64)
  {
    width - |Digits(u)| < -TWO_63
  }

  /** The width the printers make of `width`: huge when taking off the digits wraps around. */
  function WrappedWidth(u: nat, width: int64): int
  {
    if Underflows(u, width) then width + TWO_64 else width
  }

  /** The width that the printing loop still has to go: nothing is taken off for a zero. */
  function WidthToGo(u: nat, width: int64): int
  {
    if u == 0 then width else WrappedWidth(u, width)
  }

  /** A turn of the loop takes one off the width to go, whether the 64-bit width wraps around or not. */
  lemma WidthStep(u: uint64, width: int64)
    requires u > 0 || width > 0
    ensures WidthToGo(u / 10, Wrap64(width - 1)) == WidthToGo(u, width) - 1
  {
    TwentyDigits(u);
    TwentyDigits(u / 10);
    if width == -TWO_63 {
      assert Wrap64(width - 1) == TWO_63 - 1;
    }
  }

  /** The loop goes on exactly while there is something to write. */
  lemma NothingToGo(u: uint64, width: int64)
    ensures u > 0 || width > 0 <==> u > 0 || WidthToGo(u, width) > 0
  {
  }

  /** What is written and what is still to be written make up the goal. */
  predicate Written(u: uint64, width: int64, written: string, goal: string)
  {
    ToWrite(u, WidthToGo(u, width)) + written == goal
  }

  lemma NothingWritten(u: uint64, width: int64)
    requires u > 0 || width > 1
    ensures Written(u, width, [], Padded(u, WrappedWidth(u, width)))
  {
    hide Padded, WrappedWidth, WidthToGo;
    ToGo(u, width);
    var s := Padded(u, WrappedWidth(u, width));
    assert ToWrite(u, WidthToGo(u, width)) == s && s + [] == s;
  }

  lemma ToGo(u: uint64, width: int64)
    requires u > 0 || width > 1
    ensures WidthToGo(u, width) == WrappedWidth(u, width)
    ensures u > 0 || WidthToGo(u, width) > 0
  {
  }

  lemma WrittenOneMore(u: uint64, width: int64, written: string, goal: string)
    requires Written(u, width, written, goal) && (u > 0 || width > 0)
    ensures Written(u / 10, Wrap64(width - 1), [Digit(u % 10)] + written, goal)
    ensures |written| < |goal|
  {
    hide ToWrite, WidthToGo, Wrap64, Digit;
    NothingToGo(u, width);
    WidthStep(u, width);
    WriteOne(u, WidthToGo(u, width), written);
  }

  lemma AllWritten(u: uint64, width: int64, written: string, goal: string)
    requires Written(u, width, written, goal) && u == 0 && width <= 0
    ensures written == goal
  {
    hide ToWrite, WidthToGo;
    NothingToGo(u, width);
    assert [] + written == written;
  }

  /** The printing loop: digits and leading zeros from the end of the array, until both run out. */
  method FillFromEnd(v: uint64, width: int64) returns (printed: Option<string>)
    requires v > 0 || width > 1
    ensures var s := Padded(v, WrappedWidth(v, width));
            printed == if |s| <= 32 then Some(s) else None
  {
    hide Padded, Digit, WrappedWidth, Written, Wrap64;
    ghost var goal := Padded(v, WrappedWidth(v, width));
    NothingWritten(v, width);
    var u: uint64, w: int64 := v, width;
    var b := new char[32];
    var bp := 32;
    ghost var written: string := [];
    while u > 0 || w > 0
      invariant 0 <= bp <= 32
      invariant b[bp..] == written && |written| == 32 - bp
      invariant Written(u, w, written, goal)
      decreases bp
    {
      WrittenOneMore(u, w, written, goal);
      if bp == 0 {
        return None;
      }
      bp := bp - 1;
      b[bp] := Digit(u % 10);
      written := [Digit(u % 10)] + written;
      w, u := Wrap64(w - 1), u / 10;
    }
    AllWritten(u, w, written, goal);
    printed := Some(b[bp..]);
  }

  /**
   Prints into a 32-byte array from its end; none when the number does not fit, which panics. A
   negative number is printed as the unsigned number with the same 64 bits.
   */
  method Itoa(i: int64, width: int64) returns (printed: Option<string>)
    ensures i != 0 ==>
              var s := Padded(Unsigned64(i), WrappedWidth(Unsigned64(i), width));
              printed == if |s| <= 32 then Some(s) else None
    ensures i == 0 ==> printed == if width <= 32 then Some(Padded(0, width)) else None
    ensures printed == None <==> width > 32 || (i != 0 && width + TWO_63 < |Digits(Unsigned64(i))|)
  {
    var u: nat := Unsigned64(i);
    TwentyDigits(u);
    if u == 0 && width <= 1 {
      assert Padded(0, width) == ['0'];
      return Some(['0']);
    }
    printed := FillFromEnd(u, width);
  }

  /** The number without its sign; the smallest integer's is 2^63. */
  function Magnitude(x: int64): uint64
  {
    var n: int := x;
    if n < 0 then -n else n
  }

  function Sign(x: int64): string
  {
    if x < 0 then ['-'] else []
  }

  lemma TwoDigits(u: nat)
    requires u < 100
    ensures Padded(u, 2) == [Digit(u / 10), Digit(u % 10)]
  {
    PaddedStep(u, 2);
    assert Padded(u / 10, 1) == [Digit(u / 10)];
  }

  lemma FourDigits(u: nat)
    requires u < 10000
    ensures Padded(u, 4) == [Digit(u / 1000), Digit(u / 100 % 10), Digit(u / 10 % 10), Digit(u % 10)]
  {
    PaddedStep(u, 4);
    PaddedStep(u / 10, 3);
    TwoDigits(u / 100);
    assert u / 10 / 10 == u / 100 && u / 100 / 10 == u / 1000;
  }

  /** The wrapped width is what the wrapped padding adds up to; widths of two and four never wrap around. */
  lemma WidthOfPadding(u: uint64, width: int64)
    ensures Wrap64(width - |Digits(u)|) == WrappedWidth(u, width) - |Digits(u)|
    ensures width in {2, 4} ==> WrappedWidth(u, width) == width
  {
    TwentyDigits(u);
  }

  lemma PaddedParts(u: nat, width: int)
    ensures Padded(u, width) == Zeros(width - |Digits(u)|) + Digits(u)
  {
  }

  /** The number of decimal digits, one for zero. */
  method CountDigits(u: nat) returns (n: nat)
    ensures n == |Digits(u)|
  {
    n := 0;
    if u == 0 {
      n := 1;
    }
    var u2 := u;
    while u2 > 0
      invariant |Digits(u)| == n + if u2 > 0 then |Digits(u2)| else 0
    {
      n := n + 1;
      u2 := u2 / 10;
    }
  }

  /** Makes room for `n` digits behind `b` and writes them from the last one on. */
  method FillDigits(b: string, v: nat, n: nat) returns (r: string)
    requires n == |Digits(v)|
    ensures r == b + Digits(v)
  {
    var u := v;
    r := b + Zeros(n);
    var i := |r| - 1;
    while u >= 10 && i > 0
      invariant |Digits(u)| <= n && |r| == |b| + n && i == |b| + |Digits(u)| - 1
      invariant r[..|b|] == b && Digits(u) + r[i + 1..] == Digits(v)
      decreases u
    {
      var q := u / 10;
      ghost var done := r[i + 1..];
      r := r[i := Digit(u - q * 10)];
      assert r[i..] == [Digit(u % 10)] + done;
      assert Digits(q) + ([Digit(u % 10)] + done) == Digits(u) + done;
      u := q;
      i := i - 1;
    }
    r := r[i := Digit(u)];
    assert r == r[..|b|] + ([r[i]] + r[i + 1..]);
  }

  lemma WidthReached(u: uint64, width: int64)
    ensures |Padded(u, WrappedWidth(u, width))|
         == if width + TWO_63 < |Digits(u)| then width + TWO_64 else if width > |Digits(u)| then width else |Digits(u)|
  {
    TwentyDigits(u);
  }

  /** The way without shortcut: zeros one by one, then the digits. */
  method AppendPadded(b: string, u: uint64, width: int64) returns (r: string)
    ensures r == b + Padded(u, WrappedWidth(u, width))
  {
    WidthOfPadding(u, width);
    ghost var full := WrappedWidth(u, width);
    hide Digits, Padded, WrappedWidth;
    r := b;
    var n := CountDigits(u);
    var pad: int := Wrap64(width - n);
    while pad > 0
      invariant r + Zeros(pad) == b + Zeros(full - n)
    {
      r := r + ['0'];
      assert Zeros(pad) == ['0'] + Zeros(pad - 1);
      pad := pad - 1;
    }
    assert r == b + Zeros(full - n);
    r := FillDigits(r, u, n);
    PaddedParts(u, full);
    assert b + Zeros(full - n) + Digits(u) == b + (Zeros(full - n) + Digits(u));
  }

  /**
   Appends the decimal form of `x`, with leading zeros up to `width` after the sign. The padding is
   a 64-bit difference: at the lower end of the widths it wraps around and is huge.
   */
  method AppendInt(b: string, x: int64, width: int64) returns (r: string)
    ensures r == b + Sign(x) + Padded(Magnitude(x), WrappedWidth(Magnitude(x), width))
    ensures var n := |Digits(Magnitude(x))|;
            |r| == |b| + |Sign(x)| + if width + TWO_63 < n then width + TWO_64 else if width > n then width else n
  {
    WidthOfPadding(Magnitude(x), width);
    WidthReached(Magnitude(x), width);
    hide Digits, Padded, WrappedWidth;
    r := b;
    var u := Magnitude(x);
    if x < 0 {
      r := r + ['-'];
    }
    assert r == b + Sign(x);
    if width == 2 && u < 100 {
      TwoDigits(u);
      return r + [Digit(u / 10), Digit(u % 10)];
    }
    if width == 4 && u < 10000 {
      FourDigits(u);
      return r + [Digit(u / 1000), Digit(u / 100 % 10), Digit(u / 10 % 10), Digit(u % 10)];
    }
    r := AppendPadded(r, u, width);
  }

  /** The two printers write the same bytes exactly for the non-negative numbers. */
  lemma PrintersAgreeExactly(x: int64, width: int)
    ensures Sign(x) + Padded(Magnitude(x), width) == Padded(Unsigned64(x), width) <==> 0 <= x
  {
    if 0 <= x {
      assert [] + Padded(x, width) == Padded(x, width);
    } else {
      var s := Padded(Unsigned64(x), width);
      PaddedSpells(Unsigned64(x), width);
      assert s[0] in s && IsDigit(s[0]);
      assert (Sign(x) + Padded(Magnitude(x), width))[0] == '-';
    }
  }

  /**
   Run side by side they print the same exactly for a non-negative number and a width the array has
   room for and that does not wrap around; what AppendInt prints reads back as the number in any case.
   */
  method PrintBoth(x: int64, width: int64) returns (a: string, b: Option<string>)
    ensures ParseSigned(a) == Some(x)
    ensures b == Some(a) <==> 0 <= x && width <= 32 && |Digits(x)| <= width + TWO_63
  {
    a := AppendInt([], x, width);
    b := Itoa(x, width);
    SignedReadsBack(x, WrappedWidth(Magnitude(x), width));
    SideBySide(x, width, a, b);
  }

  lemma SideBySide(x: int64, width: int64, a: string, b: Option<string>)
    requires a == [] + Sign(x) + Padded(Magnitude(x), WrappedWidth(Magnitude(x), width))
    requires x != 0 ==>
               var s := Padded(Unsigned64(x), WrappedWidth(Unsigned64(x), width));
               b == if |s| <= 32 then Some(s) else None
    requires x == 0 ==> b == if width <= 32 then Some(Padded(0, width)) else None
    ensures b == Some(a) <==> 0 <= x && width <= 32 && !Underflows(x, width)
  {
    TwentyDigits(Unsigned64(x));
    TwentyDigits(Magnitude(x));
    hide Digits, Padded;
    PrintersAgreeExactly(x, WrappedWidth(Unsigned64(x), width));
    if x < 0 {
      PaddedSpells(Unsigned64(x), WrappedWidth(Unsigned64(x), width));
    }
  }

  /** A signed decimal string read back. */
  function ParseSigned(s: string): Option<int>
  {
    if s != [] && s[0] == '-' && forall c <- s[1..] :: IsDigit(c) then
      var n: int := Value(s[1..]);
      Some(-n)
    else if forall c <- s :: IsDigit(c) then
      Some(Value(s))
    else
      None
  }

  lemma ParsedMinus(digits: string)
    requires forall c <- digits :: IsDigit(c)
    ensures ParseSigned(['-'] + digits) == Some(-(Value(digits) as int))
  {
    hide Value;
    assert (['-'] + digits)[1..] == digits;
  }

  lemma ParsedPlain(digits: string)
    requires digits != [] && forall c <- digits :: IsDigit(c)
    ensures ParseSigned(digits) == Some(Value(digits))
  {
    hide Value;
    assert digits[0] in digits;
  }

  /** What AppendInt writes reads back as the number, sign and all, the smallest integer included. */
  lemma SignedReadsBack(x: int64, width: int)
    ensures ParseSigned(Sign(x) + Padded(Magnitude(x), width)) == Some(x)
  {
    hide Padded, Value, IsDigit, ParseSigned;
    var s := Padded(Magnitude(x), width);
    PaddedSpells(Magnitude(x), width);
    if x < 0 {
      ParsedMinus(s);
    } else {
      ParsedPlain(s);
      assert [] + s == s;
    }
  }
}
