/**
 What a length-prefixed stream means: the frames a byte string holds and the bytes left over,
 defined on the whole stream at once. The streaming decoder is proved against this.
 */
module Framing {
  import opened Bytes

  datatype ByteOrder = Unset | BigEndian | LittleEndian

  /** The frame layout a decoder is configured with. The order may be left unset. */
  datatype LengthField = LengthField(
    order: ByteOrder, maxFrameLength: uint64, offset: int64, width: int64, adjustment: int64, strip: int64)
  {
    /** The layout with its byte order settled: big-endian unless one was asked for. */
    function Normalized(): LengthField
    {
      if order == Unset then this.(order := BigEndian) else this
    }

    /** Where the length field ends; machine addition. */
    function EndOffset(): int64
    {
      Wrap64(offset + width)
    }

    /** The length field of `buf` can be sliced out and has a width the decoder reads. */
    predicate Readable(buf: seq<byte>)
    {
      0 <= offset && width in {1, 2, 3, 4, 8} && offset + width <= |buf|
    }

    /** The number in the length field; only the eight-byte form is signed. */
    function FieldValue(buf: seq<byte>): int64
      requires Readable(buf)
    {
      var head := buf[offset..offset + width];
      var v := if order == LittleEndian then FromLittleEndian(head) else FromBigEndian(head);
      if width == 8 then
        Wrap64(v)
      else
        FieldBound(head);
        v
    }

    lemma FieldBound(head: seq<byte>)
      requires |head| in {1, 2, 3, 4}
      ensures FromLittleEndian(head) < TWO_32 && FromBigEndian(head) < TWO_32
    {
      LittleEndianBound(head);
      BigEndianBound(head);
      assert Pow256(1) == 256 && Pow256(2) == 0x1_0000 && Pow256(3) == 0x100_0000 && Pow256(4) == TWO_32;
    }

    /** Total length the header announces, adjusted. */
    function Announced(buf: seq<byte>): int64
      requires Readable(buf)
    {
      Wrap64(FieldValue(buf) + adjustment + EndOffset())
    }

    /** A layout whose header can be read at all. */
    predicate WellFormed()
    {
      0 <= offset && width in {1, 2, 3, 4, 8} && offset + width < TWO_63 && 0 <= strip
    }

    /** The header at the front announces a length the decoder accepts. */
    predicate Accepts(buf: seq<byte>)
      requires WellFormed() && EndOffset() <= |buf|
    {
      0 <= FieldValue(buf) && 1 <= Announced(buf) && strip <= Announced(buf) <= maxFrameLength
    }
  }

  lemma AnnouncedSeesHeaderOnly(lf: LengthField, a: seq<byte>, b: seq<byte>)
    requires lf.WellFormed() && lf.EndOffset() <= |a|
    ensures lf.FieldValue(a + b) == lf.FieldValue(a)
    ensures lf.Announced(a + b) == lf.Announced(a)
  {
    assert (a + b)[lf.offset..lf.offset + lf.width] == a[lf.offset..lf.offset + lf.width];
  }

  /** The byte of the length field that counts 256^i. */
  function ByteOfWeight(lf: LengthField, s: seq<byte>, i: nat): int
    requires lf.WellFormed() && lf.offset + lf.width <= |s| && i < lf.width
  {
    (if lf.order == LittleEndian then s[lf.offset + i] else s[lf.offset + lf.width - 1 - i]) as int
  }

  lemma {:induction false} BigEndianSplit(s: seq<byte>, t: seq<byte>)
    ensures FromBigEndian(s + t) == FromBigEndian(s) * Pow256(|t|) + FromBigEndian(t)
    decreases |t|
  {
    if t == [] {
      assert s + t == s;
    } else {
      var n := |t| - 1;
      assert (s + t)[..|s + t| - 1] == s + t[..n];
      BigEndianSplit(s, t[..n]);
      assert FromBigEndian(s) * Pow256(n + 1) == 256 * (FromBigEndian(s) * Pow256(n));
    }
  }

  lemma {:induction false} LittleEndianSplit(s: seq<byte>, t: seq<byte>)
    ensures FromLittleEndian(s + t) == FromLittleEndian(s) + Pow256(|s|) * FromLittleEndian(t)
    decreases |s|
  {
    if s == [] {
      assert s + t == t;
    } else {
      assert (s + t)[1..] == s[1..] + t;
      LittleEndianSplit(s[1..], t);
      var n := |s| - 1;
      assert 256 * (Pow256(n) * FromLittleEndian(t)) == Pow256(n + 1) * FromLittleEndian(t);
    }
  }

  /** The number that bytes spell in either order. */
  function Number(head: seq<byte>, little: bool): nat
  {
    if little then FromLittleEndian(head) else FromBigEndian(head)
  }

  /** The byte that counts 256^i in it. */
  function Weight(head: seq<byte>, little: bool, i: nat): int
    requires i < |head|
  {
    head[if little then i else |head| - 1 - i] as int
  }

  lemma OneByte(s: seq<byte>)
    requires |s| == 1
    ensures FromBigEndian(s) == FromLittleEndian(s) == s[0] as int
  {
    assert s[..0] == [] && s[1..] == [] && FromBigEndian([]) == 0 && FromLittleEndian([]) == 0;
  }

  lemma TwoBytes(s: seq<byte>)
    requires |s| == 2
    ensures FromBigEndian(s) == 256 * s[0] as int + s[1] as int
    ensures FromLittleEndian(s) == s[0] as int + 256 * s[1] as int
  {
    OneByte(s[..1]);
    OneByte(s[1..]);
  }

  lemma ThreeBytes(s: seq<byte>)
    requires |s| == 3
    ensures FromBigEndian(s) == 0x1_0000 * s[0] as int + 256 * s[1] as int + s[2] as int
    ensures FromLittleEndian(s) == s[0] as int + 256 * s[1] as int + 0x1_0000 * s[2] as int
  {
    TwoBytes(s[..2]);
    TwoBytes(s[1..]);
  }

  lemma EightBytes(s: seq<byte>)
    requires |s| == 8
    ensures FromBigEndian(s) == TWO_32 * FromBigEndian(s[..4]) + FromBigEndian(s[4..])
    ensures FromLittleEndian(s) == FromLittleEndian(s[..4]) + TWO_32 * FromLittleEndian(s[4..])
  {
    assert s == s[..4] + s[4..];
    BigEndianSplit(s[..4], s[4..]);
    LittleEndianSplit(s[..4], s[4..]);
    assert Pow256(2) == 0x1_0000 && Pow256(4) == TWO_32;
  }

  /** Up to four bytes and their weights. */
  lemma NumberExactly(head: seq<byte>, little: bool)
    requires |head| in {1, 2, 3, 4}
    ensures Number(head, little)
         == Weight(head, little, 0)
          + (if |head| > 1 then 0x100 * Weight(head, little, 1) else 0)
          + (if |head| > 2 then 0x1_0000 * Weight(head, little, 2) else 0)
          + (if |head| > 3 then 0x100_0000 * Weight(head, little, 3) else 0)
  {
    hide FromBigEndian, FromLittleEndian;
    if |head| == 1 {
      OneByte(head);
    } else if |head| == 2 {
      TwoBytes(head);
    } else if |head| == 3 {
      ThreeBytes(head);
    } else {
      BigEndianFour(head);
      LittleEndianFour(head);
    }
  }

  /** Eight bytes are two times four, the less significant half first or last. */
  lemma NumberOfHalves(head: seq<byte>, little: bool)
    requires |head| == 8
    ensures var low, high := if little then head[..4] else head[4..], if little then head[4..] else head[..4];
            && Number(head, little) == Number(low, little) + TWO_32 * Number(high, little)
            && (forall i :: 0 <= i < 4 ==> Weight(low, little, i) == Weight(head, little, i))
            && (forall i :: 0 <= i < 4 ==> Weight(high, little, i) == Weight(head, little, i + 4))
  {
    hide FromBigEndian, FromLittleEndian;
    EightBytes(head);
  }

  lemma FieldValueIsNumber(lf: LengthField, s: seq<byte>)
    requires lf.WellFormed() && lf.offset + lf.width <= |s|
    ensures var head := s[lf.offset..lf.offset + lf.width];
            var v := Number(head, lf.order == LittleEndian);
            && lf.FieldValue(s) == (if lf.width == 8 then Wrap64(v) else v)
            && forall i :: 0 <= i < lf.width ==> Weight(head, lf.order == LittleEndian, i) == ByteOfWeight(lf, s, i)
  {
    hide FromBigEndian, FromLittleEndian, Wrap64;
  }

  /** The number in the length field, byte by byte, for every width that is read and both orders. */
  lemma FieldValueExactly(lf: LengthField, s: seq<byte>)
    requires lf.WellFormed() && lf.offset + lf.width <= |s|
    ensures lf.width != 8 ==>
              lf.FieldValue(s)
              == ByteOfWeight(lf, s, 0)
               + (if lf.width > 1 then 0x100 * ByteOfWeight(lf, s, 1) else 0)
               + (if lf.width > 2 then 0x1_0000 * ByteOfWeight(lf, s, 2) else 0)
               + (if lf.width > 3 then 0x100_0000 * ByteOfWeight(lf, s, 3) else 0)
    ensures lf.width == 8 ==>
              lf.FieldValue(s)
              == Wrap64(ByteOfWeight(lf, s, 0) + 0x100 * ByteOfWeight(lf, s, 1)
                        + 0x1_0000 * ByteOfWeight(lf, s, 2) + 0x100_0000 * ByteOfWeight(lf, s, 3)
                        + TWO_32 * (ByteOfWeight(lf, s, 4) + 0x100 * ByteOfWeight(lf, s, 5)
                                    + 0x1_0000 * ByteOfWeight(lf, s, 6) + 0x100_0000 * ByteOfWeight(lf, s, 7)))
  {
    hide LengthField.FieldValue, Wrap64, Number, Weight, ByteOfWeight;
    var head, little := s[lf.offset..lf.offset + lf.width], lf.order == LittleEndian;
    FieldValueIsNumber(lf, s);
    if lf.width != 8 {
      NumberExactly(head, little);
    } else {
      NumberOfHalves(head, little);
      NumberExactly(if little then head[..4] else head[4..], little);
      NumberExactly(if little then head[4..] else head[..4], little);
    }
  }

  /** The announced length is that number, the correction and the end of the length field, in 64 bits. */
  lemma AnnouncedExactly(lf: LengthField, s: seq<byte>)
    requires lf.WellFormed() && lf.offset + lf.width <= |s|
    ensures lf.EndOffset() == lf.offset + lf.width
    ensures (lf.Announced(s) - (lf.FieldValue(s) + lf.adjustment + lf.offset + lf.width)) % TWO_64 == 0
  {
    hide LengthField.FieldValue;
    WholeTurns(lf.FieldValue(s) + lf.adjustment + lf.EndOffset(), 0);
  }

  /** A whole accepted frame stands at the front of `s`. */
  predicate HoldsFrame(lf: LengthField, s: seq<byte>)
    requires lf.WellFormed()
  {
    lf.EndOffset() <= |s| && lf.Accepts(s) && lf.Announced(s) <= |s|
  }

  /** Every length announced along the stream is one the decoder accepts. */
  predicate WithinLimits(lf: LengthField, s: seq<byte>)
    requires lf.WellFormed()
    decreases |s|
  {
    |s| < lf.EndOffset() || (
      && lf.Accepts(s)
      && (lf.Announced(s) <= |s| ==> WithinLimits(lf, s[lf.Announced(s)..]))
    )
  }

  /**
   The header at the front makes the decoder wait for more and do nothing else: its frame is not all
   there, or it is over-long but announced to end no later than its own header.
   */
  predicate Waits(lf: LengthField, s: seq<byte>)
    requires lf.WellFormed() && lf.EndOffset() <= |s|
  {
    && 0 <= lf.FieldValue(s)
    && (|s| < lf.Announced(s) <= lf.maxFrameLength || lf.maxFrameLength < lf.Announced(s) <= lf.EndOffset())
  }

  /** Every header met along the stream stands in front of an accepted frame or makes the decoder wait. */
  predicate Splittable(lf: LengthField, s: seq<byte>)
    requires lf.WellFormed()
    decreases |s|
  {
    || |s| < lf.EndOffset()
    || Waits(lf, s)
    || (HoldsFrame(lf, s) && Splittable(lf, s[lf.Announced(s)..]))
  }

  lemma {:induction false} WithinLimitsSplittable(lf: LengthField, s: seq<byte>)
    requires lf.WellFormed() && WithinLimits(lf, s)
    ensures Splittable(lf, s)
    decreases |s|
  {
    hide LengthField.FieldValue, LengthField.Announced;
    if !HoldsFrame(lf, s) {
    } else {
      WithinLimitsSplittable(lf, s[lf.Announced(s)..]);
    }
  }

  /** The frames of a stream, each without its stripped prefix. */
  function Frames(lf: LengthField, s: seq<byte>): (fs: seq<seq<byte>>)
    requires lf.WellFormed()
    decreases |s|
  {
    if HoldsFrame(lf, s) then
      var n := lf.Announced(s);
      [s[lf.strip..n]] + Frames(lf, s[n..])
    else
      []
  }

  /** What is left of a stream when its whole frames are gone. */
  function Leftover(lf: LengthField, s: seq<byte>): (rest: seq<byte>)
    requires lf.WellFormed()
    decreases |s|
  {
    if HoldsFrame(lf, s) then Leftover(lf, s[lf.Announced(s)..]) else s
  }

  /** A frame already complete stays the same frame whatever arrives behind it. */
  lemma PrefixStable(lf: LengthField, a: seq<byte>, b: seq<byte>)
    requires lf.WellFormed() && HoldsFrame(lf, a)
    ensures HoldsFrame(lf, a + b) && lf.Announced(a + b) == lf.Announced(a)
    ensures var n := lf.Announced(a); (a + b)[lf.strip..n] == a[lf.strip..n] && (a + b)[n..] == a[n..] + b
  {
    AnnouncedSeesHeaderOnly(lf, a, b);
  }

  /** Cutting a stream may stop anywhere and go on from what was left. */
  lemma {:induction false} CutAnywhere(lf: LengthField, a: seq<byte>, b: seq<byte>)
    requires lf.WellFormed()
    ensures Frames(lf, a + b) == Frames(lf, a) + Frames(lf, Leftover(lf, a) + b)
    ensures Leftover(lf, a + b) == Leftover(lf, Leftover(lf, a) + b)
    ensures WithinLimits(lf, a + b) ==> WithinLimits(lf, a) && WithinLimits(lf, Leftover(lf, a) + b)
    ensures Splittable(lf, a + b) ==> Splittable(lf, a) && Splittable(lf, Leftover(lf, a) + b)
    decreases |a|
  {
    hide LengthField.FieldValue, LengthField.Announced;
    if |a| < lf.EndOffset() {
    } else {
      AnnouncedSeesHeaderOnly(lf, a, b);
      if HoldsFrame(lf, a) {
        PrefixStable(lf, a, b);
        var n := lf.Announced(a);
        CutAnywhere(lf, a[n..], b);
        assert [a[lf.strip..n]] + Frames(lf, a[n..] + b)
            == [a[lf.strip..n]] + Frames(lf, a[n..]) + Frames(lf, Leftover(lf, a[n..]) + b);
      }
    }
  }

  /** No whole frame is left behind, and what is left is the end of the stream. */
  lemma {:induction false} LeftoverHoldsNoFrame(lf: LengthField, s: seq<byte>)
    requires lf.WellFormed()
    ensures !HoldsFrame(lf, Leftover(lf, s))
    ensures |Leftover(lf, s)| <= |s| && Leftover(lf, s) == s[|s| - |Leftover(lf, s)|..]
    decreases |s|
  {
    if !HoldsFrame(lf, s) {
    } else {
      LeftoverHoldsNoFrame(lf, s[lf.Announced(s)..]);
    }
  }

  /** Bytes that are one frame and no more: what they announce, as read byte by byte, is their length. */
  predicate IsFrame(lf: LengthField, w: seq<byte>)
    requires lf.WellFormed()
  {
    && lf.offset + lf.width <= |w|
    && 1 <= |w| <= lf.maxFrameLength && lf.strip <= |w| < TWO_63
    && 0 <= lf.FieldValue(w)
    && |w| == lf.FieldValue(w) + lf.adjustment + lf.offset + lf.width
  }

  /** What is delivered of frames that stand back to back: each without its first `strip` bytes. */
  function Stripped(ws: seq<seq<byte>>, strip: nat): (fs: seq<seq<byte>>)
    ensures |fs| == |ws| && forall i :: 0 <= i < |fs| && strip <= |ws[i]| ==> fs[i] == ws[i][strip..]
  {
    if ws == [] then [] else [if strip <= |ws[0]| then ws[0][strip..] else []] + Stripped(ws[1..], strip)
  }

  /** A frame at the front of a stream is its first frame, whole. */
  lemma FrameAtFront(lf: LengthField, w: seq<byte>, more: seq<byte>)
    requires lf.WellFormed() && IsFrame(lf, w)
    ensures Frames(lf, w + more) == [w[lf.strip..]] + Frames(lf, more)
    ensures Leftover(lf, w + more) == Leftover(lf, more)
    ensures WithinLimits(lf, w + more) <==> WithinLimits(lf, more)
  {
    hide LengthField.FieldValue;
    AnnouncedSeesHeaderOnly(lf, w, more);
    assert lf.EndOffset() <= |w| && lf.Announced(w) == |w|;
    assert (w + more)[lf.strip..|w|] == w[lf.strip..] && (w + more)[|w|..] == more;
  }

  /** Frames sent back to back are cut at their borders and come out in order, each without its first bytes. */
  lemma {:induction false} FramesOfJoined(lf: LengthField, ws: seq<seq<byte>>, tail: seq<byte>)
    requires lf.WellFormed() && forall w <- ws :: IsFrame(lf, w)
    ensures Frames(lf, Concat(ws) + tail) == Stripped(ws, lf.strip) + Frames(lf, tail)
    ensures Leftover(lf, Concat(ws) + tail) == Leftover(lf, tail)
    ensures WithinLimits(lf, Concat(ws) + tail) <==> WithinLimits(lf, tail)
  {
    hide LengthField.FieldValue, LengthField.Announced, Frames, Leftover, WithinLimits;
    if ws == [] {
      assert Concat(ws) + tail == tail;
      assert [] + Frames(lf, tail) == Frames(lf, tail);
    } else {
      var w, rest := ws[0], ws[1..];
      assert w in ws && Concat(ws) + tail == w + (Concat(rest) + tail);
      FramesOfJoined(lf, rest, tail);
      FrameAtFront(lf, w, Concat(rest) + tail);
      assert Stripped(ws, lf.strip) + Frames(lf, tail)
          == [w[lf.strip..]] + (Stripped(rest, lf.strip) + Frames(lf, tail));
    }
  }

  function TotalLength(fs: seq<seq<byte>>): nat
  {
    if fs == [] then 0 else |fs[0]| + TotalLength(fs[1..])
  }

  lemma Distribute(k: nat, m: int)
    ensures (k + 1) * m == k * m + m
  {
  }

  /** Every byte is accounted for: in a frame, in a stripped prefix, or left over. */
  lemma {:induction false} BytesConserved(lf: LengthField, s: seq<byte>)
    requires lf.WellFormed()
    ensures TotalLength(Frames(lf, s)) + |Frames(lf, s)| * lf.strip + |Leftover(lf, s)| == |s|
    ensures lf.strip == 0 ==> Concat(Frames(lf, s)) + Leftover(lf, s) == s
    decreases |s|
  {
    hide LengthField.FieldValue, LengthField.Announced;
    if !HoldsFrame(lf, s) {
    } else {
      var n := lf.Announced(s);
      BytesConserved(lf, s[n..]);
      var tail := Frames(lf, s[n..]);
      assert Frames(lf, s)[1..] == tail;
      Distribute(|tail|, lf.strip);
      assert |Frames(lf, s)| == |tail| + 1;
      if lf.strip == 0 {
        assert Concat(Frames(lf, s)) + Leftover(lf, s) == s[..n] + (Concat(tail) + Leftover(lf, s[n..]));
      }
    }
  }

  /** A lower bound on every announced length bounds the number of frames a stream can hold. */
  lemma {:induction false} FramesBounded(lf: LengthField, s: seq<byte>, smallest: nat)
    requires lf.WellFormed() && smallest <= lf.adjustment + lf.EndOffset() < TWO_63
    ensures |Frames(lf, s)| * smallest <= |s| - |Leftover(lf, s)|
    decreases |s|
  {
    if !HoldsFrame(lf, s) {
    } else {
      var n := lf.Announced(s);
      AcceptedAtLeast(lf, s);
      FramesBounded(lf, s[n..], smallest);
      var k := |Frames(lf, s[n..])|;
      Distribute(k, smallest);
      assert |Frames(lf, s)| == k + 1;
    }
  }

  lemma AcceptedAtLeast(lf: LengthField, s: seq<byte>)
    requires lf.WellFormed() && HoldsFrame(lf, s) && lf.adjustment + lf.EndOffset() < TWO_63
    ensures lf.adjustment + lf.EndOffset() <= lf.Announced(s)
  {
  }
}
