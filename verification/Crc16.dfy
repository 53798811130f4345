/** The table-driven checksum loop, the check of a frame, and what the check means. */
module Crc16 {
  import opened CrcRegister
  import opened CrcTables

  function Raised(hi: bv16): bv16
  {
    hi << 8
  }

  /** The register that the loop keeps as two bytes. */
  predicate Halves(hi: bv16, low: bv16, c: bv16)
  {
    hi <= 0xFF && low <= 0xFF && c == Raised(hi) | low
  }

  function Position(low: bv16, b: bv8): (pos: bv16)
    ensures pos <= 0xFF
  {
    (low ^ (b as bv16)) & 0xFF
  }

  lemma HalvesMixed(hi: bv16, low: bv16, c: bv16, b: bv8)
    requires Halves(hi, low, c)
    ensures Mixed(c, b) == Xor(Raised(hi), Position(low, b))
  {
  }

  lemma RaisedShifted(hi: bv16)
    requires hi <= 0xFF
    ensures Shift8(Raised(hi)) == hi
  {
    Shift8OfHigh(hi);
  }

  lemma JoinEntries(hi: bv16, h: bv8, l: bv8)
    requires hi <= 0xFF
    ensures Halves(l as bv16, hi ^ (h as bv16), Xor(hi, Join(h, l)))
  {
  }

  /** One turn of the loop is eight shifts of the register. */
  lemma TurnIsShift8(hi: bv16, low: bv16, c: bv16, b: bv8)
    requires Halves(hi, low, c)
    ensures IsTable(CRC16_H) && IsTable(CRC16_L)
    ensures var pos := Position(low, b);
            Halves(Entry(CRC16_L, pos) as bv16, hi ^ (Entry(CRC16_H, pos) as bv16), Shift8(Mixed(c, b)))
  {
    hide Shift8, Entry, Xor, Raised, Position, Mixed, Join;
    var pos := Position(low, b);
    HalvesMixed(hi, low, c, b);
    TablesAreShifts(pos);
    Shift8Linear(Raised(hi), pos);
    RaisedShifted(hi);
    JoinEntries(hi, Entry(CRC16_H, pos), Entry(CRC16_L, pos));
  }

  lemma PackedHalves(hi: bv16, low: bv16, c: bv16)
    requires Halves(hi, low, c)
    ensures ((hi & 0xFF) << 8) | ((low & 0xFF) & 0xFFFF) == c
  {
  }

  lemma FirstHalves()
    ensures Halves(0xFF, 0xFF, 0xFFFF)
  {
  }

  /** The two bytes put behind a frame: the checksum, low byte first. */
  function CrcBytes(s: seq<bv8>): seq<bv8>
  {
    [Low(Crc(s)), High(Crc(s))]
  }

  method GetCrC(buff: seq<bv8>) returns (crc: seq<bv8>)
    ensures crc == CrcBytes(buff)
  {
    hide Shift8, Entry, Mixed, Halves, Position;
    TablesAreTables();
    FirstHalves();
    var hi: bv16 := 0x00FF;
    var low: bv16 := 0x00FF;
    var i := 0;
    assert buff[..0] == [];
    while i < |buff|
      invariant 0 <= i <= |buff|
      invariant Halves(hi, low, Crc(buff[..i]))
    {
      assert buff[..i + 1][..i] == buff[..i];
      TurnIsShift8(hi, low, Crc(buff[..i]), buff[i]);
      var pos := Position(low, buff[i]);
      low := hi ^ (Entry(CRC16_H, pos) as bv16);
      hi := Entry(CRC16_L, pos) as bv16;
      i := i + 1;
    }
    assert buff[..i] == buff;
    PackedHalves(hi, low, Crc(buff));
    var dCrc := ((hi & 0x00FF) << 8) | ((low & 0x00FF) & 0xFFFF);
    crc := [(dCrc & 0xFF) as bv8, ((dCrc >> 8) & 0xFF) as bv8];
    assert crc == [Low(dCrc), High(dCrc)];
  }

  method IsComplete(src: seq<bv8>, dst: seq<bv8>) returns (same: bool)
    ensures same <==> |src| == |dst| == 2 && src == dst
  {
    same := false;
    if |src| == 2 && |dst| == 2 {
      if src[0] == dst[0] && src[1] == dst[1] {
        same := true;
      }
    }
  }

  method CheckCRC(src: seq<bv8>, crc: seq<bv8>) returns (ok: bool)
    ensures ok <==> crc == CrcBytes(src)
  {
    var own := GetCrC(src);
    ok := IsComplete(own, crc);
  }

  // ----- what the check accepts

  /** A frame whose last two bytes are the checksum of what stands before them. */
  predicate Accepted(frame: seq<bv8>)
  {
    2 <= |frame| && frame[|frame| - 2..] == CrcBytes(frame[..|frame| - 2])
  }

  lemma ZeroShifted()
    ensures Shift8(0) == 0
  {
    assert Shift(0) == 0;
    hide Shift;
  }

  lemma Shift8Zero(z: bv16)
    ensures Shift8(z) == 0 <==> z == 0
  {
    ZeroShifted();
    hide Shift8;
    if Shift8(z) == 0 {
      Shift8Injective(z, 0);
    }
  }

  lemma MixedZero(w: bv16, y: bv8)
    ensures Mixed(w, y) == 0 <==> w == y as bv16
  {
  }

  lemma MixedRaised(c: bv16, x: bv8, y: bv8)
    ensures Mixed(c, x) == Raised(y as bv16) <==> x == Low(c) && y == High(c)
  {
  }

  lemma TwoBytesToZero(c: bv16, x: bv8, y: bv8)
    ensures Shift8(Mixed(Shift8(Mixed(c, x)), y)) == 0 <==> x == Low(c) && y == High(c)
  {
    hide Shift8, Mixed, Raised, Low, High;
    var w := Shift8(Mixed(c, x));
    Shift8Zero(Mixed(w, y));
    MixedZero(w, y);
    RaisedShifted(y as bv16);
    MixedRaised(c, x, y);
    if w == y as bv16 {
      Shift8Injective(Mixed(c, x), Raised(y as bv16));
    }
  }

  lemma TwoOnesBytes()
    ensures Run(0xFFFF, [0xFF, 0xFF]) == 0
  {
    assert [0xFF, 0xFF][..1] == [0xFF] && [0xFF][..0] == [];
    Shift8OfHigh(0xFF);
    ZeroShifted();
    hide Shift8;
    assert Mixed(0xFFFF, 0xFF) == 0xFF << 8;
    assert Mixed(0xFF, 0xFF) == 0;
    assert Run(0xFFFF, [0xFF]) == 0xFF;
  }

  /** The initial value is the one that two bytes of ones clear: behind them a checksum starts from zero. */
  lemma InitialValueExactly(t: seq<bv8>)
    ensures Crc([0xFF, 0xFF] + t) == Run(0, t)
  {
    hide Run;
    TwoOnesBytes();
    RunOn(0xFFFF, [0xFF, 0xFF], t);
  }

  lemma ThreeTurns(c: bv16, x: bv8, y: bv8, z: bv8)
    ensures Run(c, [x, y, z]) == Shift8(Mixed(Shift8(Mixed(Shift8(Mixed(c, x)), y)), z))
  {
    hide Shift8, Mixed;
    assert [x, y, z][..2] == [x, y] && [x, y][..1] == [x] && [x][..0] == [];
    assert Run(c, [x]) == Shift8(Mixed(c, x));
    assert Run(c, [x, y]) == Shift8(Mixed(Run(c, [x]), y));
  }

  lemma FirstDigits()
    ensures Run(0xFFFF, [0x31, 0x32, 0x33]) == 0x7A75
  {
    assert Shift8(Mixed(0xFFFF, 0x31)) == 0x947E;
    assert Shift8(Mixed(0x947E, 0x32)) == 0xF595;
    assert Shift8(Mixed(0xF595, 0x33)) == 0x7A75;
    hide Shift8, Mixed, Run;
    ThreeTurns(0xFFFF, 0x31, 0x32, 0x33);
  }

  lemma MiddleDigits()
    ensures Run(0x7A75, [0x34, 0x35, 0x36]) == 0x32E4
  {
    assert Shift8(Mixed(0x7A75, 0x34)) == 0x30BA;
    assert Shift8(Mixed(0x30BA, 0x35)) == 0xA471;
    assert Shift8(Mixed(0xA471, 0x36)) == 0x32E4;
    hide Shift8, Mixed, Run;
    ThreeTurns(0x7A75, 0x34, 0x35, 0x36);
  }

  lemma LastDigits()
    ensures Run(0x32E4, [0x37, 0x38, 0x39]) == 0x4B37
  {
    assert Shift8(Mixed(0x32E4, 0x37)) == 0x9D73;
    assert Shift8(Mixed(0x9D73, 0x38)) == 0x37DD;
    assert Shift8(Mixed(0x37DD, 0x39)) == 0x4B37;
    hide Shift8, Mixed, Run;
    ThreeTurns(0x32E4, 0x37, 0x38, 0x39);
  }

  /** The checksum of the digits 1 to 9, low byte first, is the published one of this code. */
  lemma SampleChecksum()
    ensures CrcBytes([0x31, 0x32, 0x33, 0x34, 0x35, 0x36, 0x37, 0x38, 0x39]) == [0x37, 0x4B]
  {
    hide Run;
    var a, b, c: seq<bv8> := [0x31, 0x32, 0x33], [0x34, 0x35, 0x36], [0x37, 0x38, 0x39];
    assert a + b + c == [0x31, 0x32, 0x33, 0x34, 0x35, 0x36, 0x37, 0x38, 0x39];
    RunOn(0xFFFF, a, b);
    RunOn(0xFFFF, a + b, c);
    FirstDigits();
    MiddleDigits();
    LastDigits();
  }

  /** A frame is accepted exactly when the register run over all of it, checksum included, ends at zero. */
  lemma AcceptedMeansZero(frame: seq<bv8>)
    requires 2 <= |frame|
    ensures Accepted(frame) <==> Crc(frame) == 0
  {
    hide Shift8, Mixed, Low, High;
    var n := |frame|;
    var c := Crc(frame[..n - 2]);
    var most := frame[..n - 1];
    assert most[..n - 2] == frame[..n - 2];
    assert Run(0xFFFF, most) == Shift8(Mixed(c, frame[n - 2]));
    assert frame[n - 2..] == [frame[n - 2], frame[n - 1]];
    TwoBytesToZero(c, frame[n - 2], frame[n - 1]);
  }
}
