/** HTLV frames with a checksum: head, function code, one length byte, body, two checksum bytes. */
module Htlv {
  import opened Bytes
  import opened Framing
  import opened Messages
  import opened Options
  import opened Crc16
  import CrcDetection
  import FrameDecoding

  const HEADER_SIZE := 5

  function Preset(): LengthField
  {
    LengthField(Unset, 255 + 4, 2, 1, 2, 0)
  }

  function Layout(): (lf: LengthField)
    ensures lf.WellFormed()
  {
    Preset().Normalized()
  }

  // ----- a byte as eight bits and back, half a byte at a time

  function Nibble(x: int): bv8
    requires 0 <= x < 16
  {
    x as bv8
  }

  function Number(b: bv8): int
  {
    b as int
  }

  function Glue(h: bv8, l: bv8): bv8
  {
    (h << 4) | l
  }

  function Upper(b: bv8): bv8
  {
    b >> 4
  }

  function Lower(b: bv8): bv8
  {
    b & 0xF
  }

  function ToBits(b: byte): bv8
  {
    Glue(Nibble(b as int / 16), Nibble(b as int % 16))
  }

  function FromBits(b: bv8): byte
  {
    NibblesInRange(b);
    (16 * Number(Upper(b)) + Number(Lower(b))) as byte
  }

  lemma NibblesInRange(b: bv8)
    ensures 0 <= Number(Upper(b)) < 16 && 0 <= Number(Lower(b)) < 16
  {
  }

  lemma NumberOfNibble(x: int)
    requires 0 <= x < 16
    ensures Number(Nibble(x)) == x && Nibble(x) <= 0xF
  {
  }

  lemma NibbleOfNumber(b: bv8)
    requires 0 <= Number(b) < 16
    ensures Nibble(Number(b)) == b
  {
  }

  lemma Parted(h: bv8, l: bv8)
    requires h <= 0xF && l <= 0xF
    ensures Upper(Glue(h, l)) == h && Lower(Glue(h, l)) == l
  {
  }

  lemma Joined(b: bv8)
    ensures Glue(Upper(b), Lower(b)) == b
  {
  }

  lemma GlueAsSum(h: bv8, l: bv8)
    requires h <= 0xF && l <= 0xF
    ensures Number(Glue(h, l)) == 16 * Number(h) + Number(l)
  {
    assert (h << 4) | l == 16 * h + l;
  }

  /** The eight bits of a byte are its number. */
  lemma ToBitsExactly(b: byte)
    ensures ToBits(b) as int == b as int
  {
    hide Nibble, Glue, Upper, Lower;
    var h, l := b as int / 16, b as int % 16;
    NumberOfNibble(h);
    NumberOfNibble(l);
    GlueAsSum(Nibble(h), Nibble(l));
  }

  lemma FromToBits(b: byte)
    ensures FromBits(ToBits(b)) == b
  {
    hide Nibble, Number, Glue, Upper, Lower;
    var h, l := b as int / 16, b as int % 16;
    NumberOfNibble(h);
    NumberOfNibble(l);
    Parted(Nibble(h), Nibble(l));
  }

  lemma ToFromBits(b: bv8)
    ensures ToBits(FromBits(b)) == b
  {
    hide Nibble, Number, Glue, Upper, Lower;
    NibblesInRange(b);
    NibbleOfNumber(Upper(b));
    NibbleOfNumber(Lower(b));
    Joined(b);
  }

  function AsBits(s: seq<byte>): (b: seq<bv8>)
    ensures |b| == |s|
  {
    seq(|s|, i requires 0 <= i < |s| => ToBits(s[i]))
  }

  /** The frame's last two bytes are the checksum of the rest. */
  predicate Genuine(data: seq<byte>)
  {
    Accepted(AsBits(data))
  }

  datatype HtlvPacket = HtlvPacket(
    head: byte, funcode: byte, length: byte, body: seq<byte>, crc: seq<byte>, data: seq<byte>)

  /** Splits a frame into its fields, or gives nothing when the checksum is wrong. */
  method DecodeHtlv(data: seq<byte>) returns (p: Option<HtlvPacket>)
    requires HEADER_SIZE <= |data|
    ensures p.Some? <==> Genuine(data)
    ensures p.Some? ==>
              && p.value.data == data
              && [p.value.head, p.value.funcode, p.value.length] + p.value.body + p.value.crc == data
              && |p.value.crc| == 2
  {
    var n := |data|;
    var packet := HtlvPacket(data[0], data[1], data[2], data[3..n - 2], data[n - 2..n], data);
    Splits(data);
    var ok := CheckCRC(AsBits(data[..n - 2]), AsBits(packet.crc));
    if !ok {
      return None;
    }
    p := Some(packet);
  }

  lemma Splits(data: seq<byte>)
    requires HEADER_SIZE <= |data|
    ensures var n := |data|;
            && AsBits(data)[..n - 2] == AsBits(data[..n - 2])
            && AsBits(data)[n - 2..] == AsBits(data[n - 2..n])
            && [data[0], data[1], data[2]] + data[3..n - 2] + data[n - 2..n] == data
  {
    hide ToBits, FromBits;
  }

  /**
   The decoder stage of the interceptor chain: a frame with a good checksum gets its function code
   as message id and keeps its bytes; a bad checksum ends in a nil dereference.
   */
  method Intercept(msg: Message) returns (r: Intercepted<HtlvPacket>)
    modifies msg
    ensures msg.data == old(msg.data) && msg.rawData == old(msg.rawData) && msg.dataLen == old(msg.dataLen)
    ensures r.PassedOn? <==> |old(msg.data)| < HEADER_SIZE
    ensures r.Decoded? <==> HEADER_SIZE <= |old(msg.data)| && Genuine(old(msg.data))
    ensures r.Decoded? ==>
              && r.packet.data == old(msg.data) && |r.packet.crc| == 2
              && [r.packet.head, r.packet.funcode, r.packet.length] + r.packet.body + r.packet.crc == old(msg.data)
    ensures msg.id == if r.Decoded? then old(msg.data)[1] as int else old(msg.id)
  {
    if |msg.data| < HEADER_SIZE {
      return PassedOn;
    }
    var p := DecodeHtlv(msg.data);
    if p == None {
      return Panicked;
    }
    assert ([p.value.head, p.value.funcode, p.value.length] + p.value.body + p.value.crc)[1] == p.value.funcode;
    msg.id := p.value.funcode as int;
    r := Decoded(p.value);
  }

  /** The length byte announces a frame of five bytes more than the body. */
  lemma HeaderAnnounces(s: seq<byte>)
    requires 3 <= |s|
    ensures var lf := Layout();
            && lf.EndOffset() == 3
            && lf.FieldValue(s) == s[2] as int
            && lf.Announced(s) == s[2] as int + HEADER_SIZE
            && (lf.Accepts(s) <==> s[2] != 255)
  {
    assert s[2..3] == [s[2]] && [s[2]][..0] == [];
    assert FromBigEndian([]) == 0;
  }

  /** No bytes make a decoder with this preset panic or loop for ever. */
  lemma AlwaysReturns(d: FrameDecoding.Discard, buf: seq<byte>)
    ensures FrameDecoding.Drain(Layout(), d, buf).ending == FrameDecoding.Returned
  {
    FrameDecoding.CuttableAlwaysReturns(Layout(), d, buf);
  }

  /** No header met along the stream announces a body of 255 bytes. */
  predicate BodiesFit(s: seq<byte>)
    decreases |s|
  {
    |s| < 3 || (s[2] != 255 && (s[2] as int + HEADER_SIZE <= |s| ==> BodiesFit(s[s[2] as int + HEADER_SIZE..])))
  }

  /** Under this preset the decoder accepts every header of a stream exactly when no body has 255 bytes. */
  lemma {:induction false} WithinLimitsExactly(s: seq<byte>)
    ensures WithinLimits(Layout(), s) <==> BodiesFit(s)
    decreases |s|
  {
    hide LengthField.FieldValue, LengthField.Announced, LengthField.Accepts;
    if |s| < 3 {
    } else {
      HeaderAnnounces(s);
      var n := s[2] as int + HEADER_SIZE;
      if n <= |s| {
        WithinLimitsExactly(s[n..]);
      }
    }
  }

  /** Every frame cut from a stream has exactly the body its length byte announces. */
  lemma {:induction false} FramesHaveAnnouncedBodies(s: seq<byte>)
    ensures forall f <- Frames(Layout(), s) :: HEADER_SIZE <= |f| == f[2] as int + HEADER_SIZE
    decreases |s|
  {
    hide LengthField.FieldValue, LengthField.Announced, LengthField.Accepts;
    if !HoldsFrame(Layout(), s) {
    } else {
      HeaderAnnounces(s);
      var n := s[2] as int + HEADER_SIZE;
      FramesHaveAnnouncedBodies(s[n..]);
      assert s[0..n][2] == s[2];
    }
  }

  /** A frame as its sender writes it. */
  function Encoded(head: byte, funcode: byte, body: seq<byte>): (f: seq<byte>)
    requires |body| <= 255
    ensures |f| == |body| + HEADER_SIZE
  {
    var front := [head, funcode, |body| as byte] + body;
    var sum := CrcBytes(AsBits(front));
    front + [FromBits(sum[0]), FromBits(sum[1])]
  }

  lemma EncodedIsGenuine(head: byte, funcode: byte, body: seq<byte>)
    requires |body| <= 255
    ensures Genuine(Encoded(head, funcode, body))
  {
    hide ToBits, FromBits;
    var front := [head, funcode, |body| as byte] + body;
    var sum := CrcBytes(AsBits(front));
    var f := Encoded(head, funcode, body);
    ToFromBits(sum[0]);
    ToFromBits(sum[1]);
    assert AsBits(f)[..|f| - 2] == AsBits(front);
    assert AsBits(f)[|f| - 2..] == sum;
  }

  /** A frame is delivered from the front of a stream exactly when its body has at most 254 bytes. */
  lemma DeliveredExactly(head: byte, funcode: byte, body: seq<byte>, tail: seq<byte>)
    requires |body| <= 255
    ensures var f := Encoded(head, funcode, body);
            [f] <= Frames(Layout(), f + tail) <==> |body| <= 254
  {
    hide LengthField.FieldValue, LengthField.Announced, LengthField.Accepts;
    var f := Encoded(head, funcode, body);
    HeaderAnnounces(f + tail);
    assert (f + tail)[2] == |body| as byte;
    assert (f + tail)[0..|f|] == f;
  }

  /** What a sender puts into a frame. */
  datatype Content = Content(head: byte, funcode: byte, body: seq<byte>)

  function EncodedEach(cs: seq<Content>): (fs: seq<seq<byte>>)
    requires forall c <- cs :: |c.body| <= 255
    ensures |fs| == |cs| && forall i :: 0 <= i < |fs| ==> fs[i] == Encoded(cs[i].head, cs[i].funcode, cs[i].body)
  {
    if cs == [] then []
    else
      assert cs[0] in cs;
      [Encoded(cs[0].head, cs[0].funcode, cs[0].body)] + EncodedEach(cs[1..])
  }

  /** An encoded frame at the front of a stream is its first frame, whole. */
  lemma EncodedIsFrame(c: Content, tail: seq<byte>)
    requires |c.body| <= 254
    ensures var f := Encoded(c.head, c.funcode, c.body);
            && WithinLimits(Layout(), f + tail) == WithinLimits(Layout(), tail)
            && Frames(Layout(), f + tail) == [f] + Frames(Layout(), tail)
            && Leftover(Layout(), f + tail) == Leftover(Layout(), tail)
  {
    hide LengthField.FieldValue, LengthField.Announced, LengthField.Accepts;
    var f := Encoded(c.head, c.funcode, c.body);
    HeaderAnnounces(f + tail);
    assert (f + tail)[2] == |c.body| as byte;
    assert (f + tail)[0..|f|] == f && (f + tail)[|f|..] == tail;
  }

  /** The frames of encoded contents sent back to back are those frames, and all are accepted. */
  lemma {:induction false} StreamOfEncoded(cs: seq<Content>)
    requires forall c <- cs :: |c.body| <= 254
    ensures WithinLimits(Layout(), Concat(EncodedEach(cs)))
    ensures Frames(Layout(), Concat(EncodedEach(cs))) == EncodedEach(cs)
    ensures Leftover(Layout(), Concat(EncodedEach(cs))) == []
  {
    hide Encoded;
    if cs == [] {
    } else {
      assert cs[0] in cs;
      StreamOfEncoded(cs[1..]);
      EncodedIsFrame(cs[0], Concat(EncodedEach(cs[1..])));
    }
  }

  /** The fields of an encoded frame are those it was made of. */
  lemma EncodedFields(c: Content)
    requires |c.body| <= 255
    ensures var f := Encoded(c.head, c.funcode, c.body);
            f[0] == c.head && f[1] == c.funcode && f[3..|f| - 2] == c.body
  {
    hide FromBits, AsBits;
  }

  /**
   Any list of contents with bodies of at most 254 bytes, encoded, joined and fed to a fresh decoder
   in any pieces, comes out as exactly those frames, each with a good checksum and its own fields.
   */
  lemma EncodedRoundTrip(cs: seq<Content>, chunks: seq<seq<byte>>)
    requires forall c <- cs :: |c.body| <= 254
    requires Concat(chunks) == Concat(EncodedEach(cs))
    ensures var got := FrameDecoding.Feed(Layout(), FrameDecoding.IDLE, [], chunks);
            && got == FrameDecoding.Drained(FrameDecoding.IDLE, EncodedEach(cs), [], FrameDecoding.Returned)
            && forall i {:trigger got.frames[i]} :: 0 <= i < |cs| ==>
                 var f := got.frames[i];
                 Genuine(f) && f[0] == cs[i].head && f[1] == cs[i].funcode && f[3..|f| - 2] == cs[i].body
  {
    hide Encoded, Genuine, WithinLimits, Frames, Leftover, FrameDecoding.Feed, Layout;
    StreamOfEncoded(cs);
    assert [] + Concat(chunks) == Concat(chunks);
    NothingBuffered();
    FrameDecoding.ChunkIndependence(Layout(), [], chunks);
    forall i | 0 <= i < |cs|
      ensures Genuine(EncodedEach(cs)[i])
      ensures var f := EncodedEach(cs)[i];
              f[0] == cs[i].head && f[1] == cs[i].funcode && f[3..|f| - 2] == cs[i].body
    {
      EncodedIsGenuine(cs[i].head, cs[i].funcode, cs[i].body);
      EncodedFields(cs[i]);
    }
  }

  lemma NothingBuffered()
    ensures !HoldsFrame(Layout(), [])
  {
  }

  /** Once a frame with a body of 255 bytes is buffered, nothing is delivered any more. */
  lemma FullBodyBlocks(head: byte, funcode: byte, body: seq<byte>, tail: seq<byte>, chunks: seq<seq<byte>>)
    requires |body| == 255
    ensures FrameDecoding.Feed(Layout(), FrameDecoding.IDLE, Encoded(head, funcode, body) + tail, chunks).frames == []
  {
    hide LengthField.FieldValue, LengthField.Announced, FrameDecoding.Feed;
    var f := Encoded(head, funcode, body);
    HeaderAnnounces(f + tail);
    assert (f + tail)[2] == 255;
    FrameDecoding.BufferedOverLongFrameBlocks(Layout(), f + tail, chunks);
  }

  lemma AsBitsInjective(x: seq<byte>, y: seq<byte>)
    requires AsBits(x) == AsBits(y)
    ensures x == y
  {
    hide ToBits, FromBits;
    forall i | 0 <= i < |x|
      ensures x[i] == y[i]
    {
      assert AsBits(x)[i] == AsBits(y)[i];
      FromToBits(x[i]);
      FromToBits(y[i]);
    }
  }

  /**
   A genuine frame damaged within sixteen consecutive bits, or in an odd number of bits, is
   genuine no longer.
   */
  lemma DamageFound(x: seq<byte>, y: seq<byte>, start: nat)
    requires Genuine(x) && |x| == |y| && x != y
    requires || CrcDetection.AgreeOutside(CrcDetection.Bits(AsBits(x)), CrcDetection.Bits(AsBits(y)), start)
             || CrcDetection.Distance(CrcDetection.Bits(AsBits(x)), CrcDetection.Bits(AsBits(y))) % 2 == 1
    ensures !Genuine(y)
  {
    hide CrcDetection.Bits, Accepted, AsBits;
    if Genuine(y) {
      if CrcDetection.Distance(CrcDetection.Bits(AsBits(x)), CrcDetection.Bits(AsBits(y))) % 2 == 1 {
        CrcDetection.OddFlipsDetected(AsBits(x), AsBits(y));
      } else {
        CrcDetection.BurstDetected(AsBits(x), AsBits(y), start);
        AsBitsInjective(x, y);
      }
    }
  }
}
