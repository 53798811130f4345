/** Packing messages to bytes and getting them back: the TLV (big-endian) and LTV (little-endian) pairs. */
module Messages {
  import opened Bytes
  import opened Framing
  import opened Options
  import FrameDecoding

  /** TLV packs tag, length, value big-endian; LTV packs length, tag, value little-endian. */
  datatype Kind = Tlv | Ltv

  /** A message as its sender means it. */
  datatype Msg = Msg(id: uint32, data: seq<byte>)

  /** What a decoder reads out of a frame. */
  datatype Packet = Packet(tag: uint32, length: uint32, value: seq<byte>)

  const HEADER: int := 8

  /** The frame layout each decoder asks for. */
  function Preset(k: Kind): LengthField
  {
    match k
    case Tlv => LengthField(Unset, TWO_32 - 1 + 4 + 4, 4, 4, 0, 0)
    case Ltv => LengthField(LittleEndian, TWO_32 - 1 + 4 + 4, 0, 4, 4, 0)
  }

  /** The layout as a decoder built from it uses it. */
  function Layout(k: Kind): (lf: LengthField)
    ensures lf.WellFormed()
  {
    Preset(k).Normalized()
  }

  function Wire(k: Kind, id: uint32, dataLen: uint32, data: seq<byte>): seq<byte>
  {
    match k
    case Tlv => BigEndian32(id) + BigEndian32(dataLen) + data
    case Ltv => LittleEndian32(dataLen) + LittleEndian32(id) + data
  }

  /** The length a new message records for its payload: the low 32 bits. */
  function RecordedLength(data: seq<byte>): uint32
  {
    |data| % TWO_32
  }

  function Packed(k: Kind, m: Msg): seq<byte>
  {
    Wire(k, m.id, RecordedLength(m.data), m.data)
  }

  function PackedEach(k: Kind, ms: seq<Msg>): (ps: seq<seq<byte>>)
    ensures |ps| == |ms| && forall i :: 0 <= i < |ms| ==> ps[i] == Packed(k, ms[i])
  {
    if ms == [] then [] else [Packed(k, ms[0])] + PackedEach(k, ms[1..])
  }

  /** Tag and length of a frame of at least a header. */
  function TagOf(k: Kind, frame: seq<byte>): uint32
    requires HEADER <= |frame|
  {
    var head := if k == Tlv then frame[0..4] else frame[4..8];
    FourByteBound(head);
    if k == Tlv then FromBigEndian(head) else FromLittleEndian(head)
  }

  function LengthOf(k: Kind, frame: seq<byte>): uint32
    requires HEADER <= |frame|
  {
    var head := if k == Tlv then frame[4..8] else frame[0..4];
    FourByteBound(head);
    if k == Tlv then FromBigEndian(head) else FromLittleEndian(head)
  }

  lemma FourByteBound(head: seq<byte>)
    requires |head| == 4
    ensures FromBigEndian(head) < TWO_32 && FromLittleEndian(head) < TWO_32
  {
    BigEndianBound(head);
    LittleEndianBound(head);
    assert Pow256(2) == 0x1_0000 && Pow256(4) == TWO_32;
  }

  /**
   Decoding a frame. The end of the value is a 32-bit sum and may wrap; slicing out of the
   frame is a panic, `None`.
   */
  function DecodePacket(k: Kind, frame: seq<byte>): Option<Packet>
    requires HEADER <= |frame|
  {
    var length := LengthOf(k, frame);
    var end := (HEADER + length) % TWO_32;
    if end < HEADER || |frame| < end then
      None
    else
      Some(Packet(TagOf(k, frame), length, frame[HEADER..end]))
  }

  lemma HeaderOfWire(k: Kind, id: uint32, dataLen: uint32, data: seq<byte>)
    ensures var w := Wire(k, id, dataLen, data);
            && |w| == HEADER + |data|
            && TagOf(k, w) == id && LengthOf(k, w) == dataLen
            && w[HEADER..] == data
  {
    var w := Wire(k, id, dataLen, data);
    match k
    case Tlv =>
      assert w[0..4] == BigEndian32(id) && w[4..8] == BigEndian32(dataLen);
    case Ltv =>
      assert w[0..4] == LittleEndian32(dataLen) && w[4..8] == LittleEndian32(id);
  }

  /** Four bytes from `at` on, most or least significant first, byte by byte. */
  function Four(s: seq<byte>, at: nat, mostFirst: bool): int
    requires at + 4 <= |s|
  {
    if mostFirst then
      0x100_0000 * s[at] as int + 0x1_0000 * s[at + 1] as int + 0x100 * s[at + 2] as int + s[at + 3] as int
    else
      s[at] as int + 0x100 * s[at + 1] as int + 0x1_0000 * s[at + 2] as int + 0x100_0000 * s[at + 3] as int
  }

  /** Tag and length of any frame, by position and weight of their bytes. */
  lemma HeaderExactly(k: Kind, frame: seq<byte>)
    requires HEADER <= |frame|
    ensures TagOf(k, frame) == if k == Tlv then Four(frame, 0, true) else Four(frame, 4, false)
    ensures LengthOf(k, frame) == if k == Tlv then Four(frame, 4, true) else Four(frame, 0, false)
  {
    hide FromBigEndian, FromLittleEndian;
    BigEndianFour(frame[0..4]);
    BigEndianFour(frame[4..8]);
    LittleEndianFour(frame[0..4]);
    LittleEndianFour(frame[4..8]);
  }

  /**
   What decoding makes of any frame, whoever wrote it: the value is as long as the header says and
   starts behind it; a length within eight of 2^32, or beyond the end of the frame, panics.
   */
  lemma DecodesExactly(k: Kind, frame: seq<byte>)
    requires HEADER <= |frame|
    ensures var tag := if k == Tlv then Four(frame, 0, true) else Four(frame, 4, false);
            var length := if k == Tlv then Four(frame, 4, true) else Four(frame, 0, false);
            DecodePacket(k, frame)
            == if length <= TWO_32 - 9 && 8 + length <= |frame|
               then Some(Packet(tag, length, frame[8..8 + length]))
               else None
  {
    hide TagOf, LengthOf, Four;
    HeaderExactly(k, frame);
  }

  /** Under either preset a header of any bytes announces its length field plus eight, never too much. */
  lemma PresetAnnounces(k: Kind, s: seq<byte>)
    requires HEADER <= |s|
    ensures var lf := Layout(k);
            && lf.EndOffset() <= HEADER
            && lf.FieldValue(s) == LengthOf(k, s)
            && lf.Announced(s) == HEADER + LengthOf(k, s)
            && lf.Accepts(s)
            && (lf.Announced(s) == lf.maxFrameLength <==> LengthOf(k, s) == TWO_32 - 1)
  {
  }

  lemma ShortHeaderAccepted(s: seq<byte>)
    requires 4 <= |s| < HEADER
    ensures Layout(Ltv).Accepts(s) && Layout(Ltv).Announced(s) > |s|
  {
    FourByteBound(s[0..4]);
  }

  /** No byte stream ever takes either preset to an over-long, negative or too-short frame. */
  lemma {:induction false} PresetAlwaysWithinLimits(k: Kind, s: seq<byte>)
    ensures WithinLimits(Layout(k), s)
    decreases |s|
  {
    var lf := Layout(k);
    if HEADER <= |s| {
      PresetAnnounces(k, s);
      if lf.Announced(s) <= |s| {
        PresetAlwaysWithinLimits(k, s[lf.Announced(s)..]);
      }
    } else if k == Ltv && 4 <= |s| {
      ShortHeaderAccepted(s);
    }
  }

  /** A packed message at the front of a stream is its first frame, whole. */
  lemma PackedIsFrame(k: Kind, m: Msg, tail: seq<byte>)
    requires |m.data| < TWO_32
    ensures var lf := Layout(k);
            && Frames(lf, Packed(k, m) + tail) == [Packed(k, m)] + Frames(lf, tail)
            && Leftover(lf, Packed(k, m) + tail) == Leftover(lf, tail)
  {
    hide LengthField.FieldValue, LengthField.Announced, Wire, TagOf, LengthOf, LengthField.Accepts;
    var lf, w := Layout(k), Packed(k, m);
    HeaderOfWire(k, m.id, RecordedLength(m.data), m.data);
    PresetAnnounces(k, w);
    PresetAnnounces(k, w + tail);
    AnnouncedSeesHeaderOnly(lf, w, tail);
    assert HoldsFrame(lf, w + tail);
    assert (w + tail)[0..|w|] == w && (w + tail)[|w|..] == tail;
  }

  /** The frames of packed messages sent back to back are the packed messages. */
  lemma {:induction false} StreamOfPacked(k: Kind, ms: seq<Msg>)
    requires forall m <- ms :: |m.data| < TWO_32
    ensures Frames(Layout(k), Concat(PackedEach(k, ms))) == PackedEach(k, ms)
    ensures Leftover(Layout(k), Concat(PackedEach(k, ms))) == []
  {
    if ms == [] {
    } else {
      StreamOfPacked(k, ms[1..]);
      PackedIsFrame(k, ms[0], Concat(PackedEach(k, ms[1..])));
    }
  }

  /** Decoding a packed message gives it back exactly when header and payload fit in 32 bits. */
  lemma DecodePacked(k: Kind, m: Msg)
    ensures HEADER <= |Packed(k, m)|
    ensures DecodePacket(k, Packed(k, m)) == Some(Packet(m.id, |m.data| % TWO_32, m.data))
       <==> |m.data| <= TWO_32 - 9
    ensures TWO_32 - 8 <= |m.data| < TWO_32 ==> DecodePacket(k, Packed(k, m)) == None
  {
    hide Wire, TagOf, LengthOf;
    var w := Packed(k, m);
    var n := RecordedLength(m.data);
    HeaderOfWire(k, m.id, n, m.data);
    if |m.data| <= TWO_32 - 9 {
      assert w[HEADER..HEADER + n] == m.data;
    }
  }

  /** The bytes of one packed message, taken as a stream, come back as that message. */
  predicate Recovers(k: Kind, m: Msg)
  {
    var w := Packed(k, m);
    && HEADER <= |w|
    && Frames(Layout(k), w) == [w]
    && match DecodePacket(k, w)
       case Some(p) => p.tag == m.id && p.length == |m.data| && p.value == m.data
       case None => false
  }

  /** One message survives the wire exactly when its payload is at most 2^32 - 9 bytes. */
  lemma RoundTripExactly(k: Kind, m: Msg)
    ensures Recovers(k, m) <==> |m.data| <= TWO_32 - 9
  {
    hide Packed, DecodePacket, WithinLimits, Frames, Leftover;
    DecodePacked(k, m);
    if |m.data| < TWO_32 {
      PackedIsFrame(k, m, []);
      NoBytesNoFrames(k);
      assert Packed(k, m) + [] == Packed(k, m);
    }
  }

  /**
   A message is delivered altered, instead of intact or not at all, exactly when its payload is too
   long for the length field and the recorded length is not within eight of 2^32.
   */
  lemma AlteredExactly(k: Kind, m: Msg)
    ensures var fs := Frames(Layout(k), Packed(k, m));
            && fs != [] && HEADER <= |fs[0]|
            && match DecodePacket(k, fs[0])
               case None => TWO_32 - 8 <= |m.data| % TWO_32
               case Some(p) =>
                 |m.data| % TWO_32 < TWO_32 - 8 && ((p.tag == m.id && p.value == m.data) <==> |m.data| < TWO_32)
  {
    hide Frames, Wire, TagOf, LengthOf, Packed;
    FirstFrameOfPacked(k, m);
    var n := RecordedLength(m.data);
    var f := Frames(Layout(k), Packed(k, m))[0];
    if n < TWO_32 - 8 {
      assert f[HEADER..HEADER + n] == m.data[..n];
    }
  }

  /** The first frame of a packed message ends where the recorded length says. */
  lemma FirstFrameOfPacked(k: Kind, m: Msg)
    ensures var fs := Frames(Layout(k), Packed(k, m));
            var n := RecordedLength(m.data);
            && fs != [] && |fs[0]| == HEADER + n
            && TagOf(k, fs[0]) == m.id && LengthOf(k, fs[0]) == n && fs[0][HEADER..] == m.data[..n]
  {
    hide LengthField.FieldValue, LengthField.Announced, LengthField.Accepts, Wire;
    var w, n := Packed(k, m), RecordedLength(m.data);
    HeaderOfWire(k, m.id, n, m.data);
    PresetAnnounces(k, w);
    var f := w[0..HEADER + n];
    assert f[0..4] == w[0..4] && f[4..8] == w[4..8];
    assert f[HEADER..] == w[HEADER..][..n];
  }

  lemma NoBytesNoFrames(k: Kind)
    ensures Frames(Layout(k), []) == [] && Leftover(Layout(k), []) == []
  {
  }

  /** What the decoder stage makes of the frames it is given. */
  function DecodeEach(k: Kind, frames: seq<seq<byte>>): (ps: seq<Option<Packet>>)
    ensures |ps| == |frames|
  {
    seq(|frames|, i requires 0 <= i < |frames| =>
      if HEADER <= |frames[i]| then DecodePacket(k, frames[i]) else None)
  }

  lemma DecodePackedAt(k: Kind, ms: seq<Msg>, i: nat)
    requires i < |ms| && |ms[i].data| <= TWO_32 - 9
    ensures DecodeEach(k, PackedEach(k, ms))[i] == Some(Packet(ms[i].id, |ms[i].data|, ms[i].data))
  {
    hide Packed, DecodePacket;
    DecodePacked(k, ms[i]);
  }

  lemma DecodePackedEach(k: Kind, ms: seq<Msg>)
    requires forall m <- ms :: |m.data| <= TWO_32 - 9
    ensures forall i :: 0 <= i < |ms| ==>
              DecodeEach(k, PackedEach(k, ms))[i] == Some(Packet(ms[i].id, |ms[i].data|, ms[i].data))
  {
    hide PackedEach, DecodeEach, DecodePacket;
    forall i | 0 <= i < |ms|
      ensures DecodeEach(k, PackedEach(k, ms))[i] == Some(Packet(ms[i].id, |ms[i].data|, ms[i].data))
    {
      DecodePackedAt(k, ms, i);
    }
  }

  /**
   Any list of messages, packed, joined and fed to a fresh decoder in any pieces, comes out as
   exactly that list, with nothing left in the buffer.
   */
  lemma PackedRoundTrip(k: Kind, ms: seq<Msg>, chunks: seq<seq<byte>>)
    requires forall m <- ms :: |m.data| <= TWO_32 - 9
    requires Concat(chunks) == Concat(PackedEach(k, ms))
    ensures var got := FrameDecoding.Feed(Layout(k), FrameDecoding.IDLE, [], chunks);
            && got == FrameDecoding.Drained(FrameDecoding.IDLE, got.frames, [], FrameDecoding.Returned)
            && |got.frames| == |ms|
            && forall i :: 0 <= i < |ms| ==>
                 DecodeEach(k, got.frames)[i] == Some(Packet(ms[i].id, |ms[i].data|, ms[i].data))
  {
    hide Packed, DecodePacket, WithinLimits, Frames, Leftover, DecodeEach, FrameDecoding.Feed, Layout;
    StreamOfPacked(k, ms);
    assert [] + Concat(chunks) == Concat(chunks);
    PresetAlwaysWithinLimits(k, Concat(chunks));
    NothingBuffered(k);
    FrameDecoding.ChunkIndependence(Layout(k), [], chunks);
    DecodePackedEach(k, ms);
  }

  lemma NothingBuffered(k: Kind)
    ensures !HoldsFrame(Layout(k), [])
  {
  }

  /** The message object that packers read and decoders fill. */
  class Message {
    var dataLen: uint32
    var id: uint32
    var data: seq<byte>
    var rawData: seq<byte>

    /** A message to be sent. */
    constructor Package(id: uint32, data: seq<byte>)
      ensures this.id == id && this.data == data && rawData == data && dataLen == RecordedLength(data)
    {
      this.id, this.data, this.rawData := id, data, data;
      dataLen := |data| % TWO_32;
    }

    /** A message just received: its length is given, its id is not known yet. */
    constructor Received(len: uint32, data: seq<byte>)
      ensures id == 0 && this.data == data && rawData == data && dataLen == len
    {
      id, dataLen, this.data, this.rawData := 0, len, data, data;
    }
  }

  /** Packs what the message records, whatever its length field says about its data. */
  method Pack(k: Kind, msg: Message) returns (dataBuff: seq<byte>)
    ensures |dataBuff| == 8 + |msg.data| && dataBuff[8..] == msg.data
    ensures msg.id == if k == Tlv then Four(dataBuff, 0, true) else Four(dataBuff, 4, false)
    ensures msg.dataLen == if k == Tlv then Four(dataBuff, 4, true) else Four(dataBuff, 0, false)
    ensures dataBuff == Wire(k, msg.id, msg.dataLen, msg.data)
  {
    HeaderOfWire(k, msg.id, msg.dataLen, msg.data);
    HeaderExactly(k, Wire(k, msg.id, msg.dataLen, msg.data));
    hide Four, TagOf, LengthOf;
    dataBuff := [];
    match k {
      case Tlv =>
        dataBuff := dataBuff + BigEndian32(msg.id);
        dataBuff := dataBuff + BigEndian32(msg.dataLen);
      case Ltv =>
        dataBuff := dataBuff + LittleEndian32(msg.dataLen);
        dataBuff := dataBuff + LittleEndian32(msg.id);
    }
    dataBuff := dataBuff + msg.data;
  }

  datatype Unpacked = Header(id: uint32, dataLen: uint32) | TooShort | TooLarge

  /**
   Reads a header back. For packed bytes it is the header that was written, unless the limit on
   packet sizes (0 means no limit) turns it down.
   */
  method Unpack(k: Kind, binaryData: seq<byte>, maxPacketSize: uint32) returns (u: Unpacked)
    ensures u == TooShort <==> |binaryData| < HEADER
    ensures u == TooLarge <==> |binaryData| >= HEADER && 0 < maxPacketSize < LengthOf(k, binaryData)
    ensures u.Header? ==> u.id == TagOf(k, binaryData) && u.dataLen == LengthOf(k, binaryData)
    ensures forall id, len, data {:trigger Wire(k, id, len, data)} | Wire(k, id, len, data) == binaryData ::
              u == if 0 < maxPacketSize < len then TooLarge else Header(id, len)
  {
    forall id, len, data | Wire(k, id, len, data) == binaryData
      ensures |binaryData| >= HEADER && TagOf(k, binaryData) == id && LengthOf(k, binaryData) == len
    {
      HeaderOfWire(k, id, len, data);
    }
    if |binaryData| < HEADER {
      return TooShort;
    }
    var id, dataLen := TagOf(k, binaryData), LengthOf(k, binaryData);
    if maxPacketSize > 0 && dataLen > maxPacketSize {
      return TooLarge;
    }
    u := Header(id, dataLen);
  }

  /** How the decoder stage leaves the message: passed on as it was, decoded, or a panic. */
  datatype Intercepted<+P> = PassedOn | Decoded(packet: P) | Panicked

  /** The decoder stage of the interceptor chain. */
  method Intercept(k: Kind, msg: Message) returns (r: Intercepted<Packet>)
    modifies msg
    ensures msg.rawData == old(msg.rawData)
    ensures r == if |old(msg.data)| < HEADER then PassedOn
                 else match DecodePacket(k, old(msg.data))
                      case Some(p) => Decoded(p)
                      case None => Panicked
    ensures if r.Decoded?
            then msg.id == r.packet.tag && msg.data == r.packet.value && msg.dataLen == r.packet.length
            else msg.id == old(msg.id) && msg.data == old(msg.data) && msg.dataLen == old(msg.dataLen)
  {
    if |msg.data| < HEADER {
      return PassedOn;
    }
    var packet := DecodePacket(k, msg.data);
    if packet == None {
      return Panicked;
    }
    msg.id := packet.value.tag;
    msg.data := packet.value.value;
    msg.dataLen := packet.value.length;
    r := Decoded(packet.value);
  }
}
