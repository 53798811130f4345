/**
 The streaming frame decoder: its discard-mode state machine, its read loop, and what the loop
 delivers. Panics and the endless loop on empty frames are outcomes, so no input is excluded.
 */
module FrameDecoding {
  import opened Bytes
  import opened Framing

  datatype Reason = NegativeLength | ShorterThanStrip | UnsupportedField | SliceOutOfRange

  /** What one attempt to decode yields. */
  datatype Outcome = Incomplete | Frame(data: seq<byte>) | Panic(why: Reason)

  /** The decoder's memory of an over-long frame. */
  datatype Discard = Discard(active: bool, tooLong: int64, remaining: nat)

  const IDLE := Discard(false, 0, 0)

  /** How a call of Decode ends; `Spinning` is a loop that can never leave. */
  datatype Ending = Returned | Panicked | Spinning

  datatype Drained = Drained(memory: Discard, frames: seq<seq<byte>>, rest: seq<byte>, ending: Ending)

  function Settle(d: Discard): Discard
  {
    if d.remaining == 0 then IDLE else d
  }

  /** Bytes that discard mode removes from the front of a buffer. */
  function Dropped(d: Discard, buf: seq<byte>): (n: nat)
    ensures n <= |buf|
  {
    if !d.active then 0 else if d.remaining <= |buf| then d.remaining else |buf|
  }

  function AfterDropping(d: Discard, buf: seq<byte>): Discard
  {
    if d.active then Settle(d.(remaining := d.remaining - Dropped(d, buf))) else d
  }

  /**
   The reaction to a header that announces `n`, more than the limit, with `available` bytes at hand.
   A buffer is shorter than 2^63 bytes, so only a negative `n` can make the difference wrap around.
   */
  function Exceeded(d: Discard, n: int64, available: nat): (Discard, Outcome)
  {
    var missing := if n < 0 then Wrap64(n - available) else n - available;
    if missing >= 0 then
      (Settle(Discard(true, n, missing)), Incomplete)
    else if n < 0 then
      (d.(tooLong := n), Panic(SliceOutOfRange))
    else
      (Settle(d.(tooLong := n)), Incomplete)
  }

  /** One attempt to decode, for every layout, memory and buffer. */
  function Step(lf: LengthField, d: Discard, buf: seq<byte>): (Discard, Outcome)
  {
    var d1 := AfterDropping(d, buf);
    var rest := buf[Dropped(d, buf)..];
    if |rest| < lf.EndOffset() then
      (d1, Incomplete)
    else if !lf.Readable(rest) then
      (d1, Panic(UnsupportedField))
    else if lf.FieldValue(rest) < 0 then
      (d1, Panic(NegativeLength))
    else
      var n := lf.Announced(rest);
      if Unsigned64(n) > lf.maxFrameLength then
        Exceeded(d1, n, |rest|)
      else if |rest| < n then
        (d1, Incomplete)
      else if lf.strip > n then
        (d1, Panic(ShorterThanStrip))
      else if lf.strip < 0 then
        (d1, Panic(SliceOutOfRange))
      else
        (d1, Frame(rest[lf.strip..n]))
  }

  lemma StepFacts(lf: LengthField, d: Discard, buf: seq<byte>)
    ensures Step(lf, d, buf).1.Frame? ==> !Step(lf, d, buf).0.active || !d.active
    ensures Step(lf, d, buf).1.Frame? ==> 0 <= lf.strip && |Step(lf, d, buf).1.data| + lf.strip <= |buf|
  {
  }

  /** A drained buffer seen from a loop that already holds `frames`. */
  function Resumed(frames: seq<seq<byte>>, more: Drained): Drained
  {
    more.(frames := frames + more.frames)
  }

  /** An empty frame that removes nothing, delivered outside discard mode: the next turn is the same turn. */
  predicate Stuck(lf: LengthField, d: Discard, f: seq<byte>)
  {
    |f| + lf.strip == 0 && !d.active
  }

  /** The whole read loop over a buffer. */
  function Drain(lf: LengthField, d: Discard, buf: seq<byte>): Drained
    decreases |buf|, d.active
  {
    StepFacts(lf, d, buf);
    var (d1, o) := Step(lf, d, buf);
    match o
    case Incomplete => Drained(d1, [], buf, Returned)
    case Panic(_) => Drained(d1, [], buf, Panicked)
    case Frame(f) =>
      if Stuck(lf, d, f) then
        Drained(d1, [], buf, Spinning)
      else
        Resumed([f], Drain(lf, d1, buf[|f| + lf.strip..]))
  }

  /** A turn that yields no frame ends the loop. */
  lemma LastTurn(lf: LengthField, d: Discard, buf: seq<byte>, frames: seq<seq<byte>>)
    requires !Step(lf, d, buf).1.Frame?
    ensures var (d1, o) := Step(lf, d, buf);
            Resumed(frames, Drain(lf, d, buf)) == Drained(d1, frames, buf, if o.Panic? then Panicked else Returned)
  {
    hide Step;
    assert frames + [] == frames;
  }

  /** A turn that yields a frame spins for ever or leaves the rest of the loop behind one more frame. */
  lemma FrameTurn(lf: LengthField, d: Discard, buf: seq<byte>, frames: seq<seq<byte>>)
    requires Step(lf, d, buf).1.Frame?
    ensures var (d1, o) := Step(lf, d, buf);
            && 0 <= lf.strip && |o.data| + lf.strip <= |buf|
            && (d1.active ==> !d.active)
            && Resumed(frames, Drain(lf, d, buf))
            == if Stuck(lf, d, o.data) then Drained(d1, frames, buf, Spinning)
               else Resumed(frames + [o.data], Drain(lf, d1, buf[|o.data| + lf.strip..]))
  {
    hide Step, Resumed, Stuck;
    StepFacts(lf, d, buf);
    var (d1, o) := Step(lf, d, buf);
    if Stuck(lf, d, o.data) {
      ResumedFromNothing(frames, d1, buf);
    } else {
      ResumedTwice(frames, [o.data], Drain(lf, d1, buf[|o.data| + lf.strip..]));
    }
  }

  lemma ResumedFromNothing(frames: seq<seq<byte>>, d: Discard, buf: seq<byte>)
    ensures Resumed(frames, Drained(d, [], buf, Spinning)) == Drained(d, frames, buf, Spinning)
  {
    assert frames + [] == frames;
  }

  lemma ResumedTwice(a: seq<seq<byte>>, b: seq<seq<byte>>, more: Drained)
    ensures Resumed(a, Resumed(b, more)) == Resumed(a + b, more)
  {
    assert a + (b + more.frames) == a + b + more.frames;
  }

  /** The memory of a decoder between calls. */
  predicate MemoryConsistent(lf: LengthField, d: Discard)
  {
    if d.remaining > 0 then
      d.active && lf.maxFrameLength < d.tooLong && d.remaining <= d.tooLong - lf.EndOffset()
    else
      d == IDLE
  }

  /**
   The header at the front holds a non-negative number, but the length it announces wrapped around
   to a negative one and is taken for an over-long frame.
   */
  predicate Overflows(lf: LengthField, rest: seq<byte>)
  {
    && lf.EndOffset() <= |rest|
    && lf.Readable(rest)
    && 0 <= lf.FieldValue(rest)
    && lf.Announced(rest) < 0
    && lf.maxFrameLength < Unsigned64(lf.Announced(rest))
  }

  /**
   After a step on any bytes discard mode is on exactly while bytes remain to be thrown away, with
   its bounds, unless the header it met overflows: then never. No buffer has 2^63 bytes.
   */
  lemma DiscardMemoryKept(lf: LengthField, d: Discard, buf: seq<byte>)
    requires MemoryConsistent(lf, d) && |buf| < TWO_63
    ensures MemoryConsistent(lf, Step(lf, d, buf).0) <==> !Overflows(lf, buf[Dropped(d, buf)..])
  {
    hide LengthField.FieldValue, LengthField.Announced;
  }

  /**
   What discard mode still owes is conserved: dropping pays off exactly what it drops, and a frame
   found over-long owes its announced length less the bytes already at hand, in 64 bits.
   */
  lemma DiscardAccounts(lf: LengthField, d: Discard, buf: seq<byte>)
    requires MemoryConsistent(lf, d) && |buf| < TWO_63
    ensures var (d1, o) := Step(lf, d, buf);
            var rest := buf[Dropped(d, buf)..];
            && (d.active && rest == [] ==> |buf| + d1.remaining == d.remaining && d1.tooLong in {d.tooLong, 0})
            && (rest != [] ==> Dropped(d, buf) == d.remaining)
            && (d1.active && rest != [] ==>
                 && lf.Readable(rest) && d1.tooLong == lf.Announced(rest) == Wrap64(|rest| + d1.remaining)
                 && (!Overflows(lf, rest) ==> d1.tooLong == |rest| + d1.remaining))
  {
    hide LengthField.FieldValue, LengthField.Announced;
    var rest := buf[Dropped(d, buf)..];
    if rest != [] && lf.EndOffset() <= |rest| && lf.Readable(rest) {
      WrapUndone(lf.Announced(rest), |rest|);
    }
  }

  /** Subtracting and adding back is exact in 64 bits, wrap-around included. */
  lemma WrapUndone(n: int64, k: nat)
    ensures Wrap64(k + Wrap64(n - k)) == n
  {
  }

  /** No header that the loop comes to overflows. */
  predicate NeverOverflows(lf: LengthField, d: Discard, buf: seq<byte>)
    decreases |buf|, d.active
  {
    StepFacts(lf, d, buf);
    var (d1, o) := Step(lf, d, buf);
    && !Overflows(lf, buf[Dropped(d, buf)..])
    && (o.Frame? && !Stuck(lf, d, o.data) ==> NeverOverflows(lf, d1, buf[|o.data| + lf.strip..]))
  }

  /** The memory that a whole call leaves is consistent exactly when no header it came to overflowed. */
  lemma {:induction false} DiscardMemoryKeptByLoop(lf: LengthField, d: Discard, buf: seq<byte>)
    requires MemoryConsistent(lf, d) && |buf| < TWO_63
    ensures MemoryConsistent(lf, Drain(lf, d, buf).memory) <==> NeverOverflows(lf, d, buf)
    decreases |buf|, d.active
  {
    hide Step, Overflows, MemoryConsistent;
    StepFacts(lf, d, buf);
    DiscardMemoryKept(lf, d, buf);
    OverflowIsNoFrame(lf, d, buf);
    var (d1, o) := Step(lf, d, buf);
    if !o.Frame? || Stuck(lf, d, o.data) {
    } else {
      DiscardMemoryKeptByLoop(lf, d1, buf[|o.data| + lf.strip..]);
    }
  }

  lemma OverflowIsNoFrame(lf: LengthField, d: Discard, buf: seq<byte>)
    ensures Overflows(lf, buf[Dropped(d, buf)..]) ==> !Step(lf, d, buf).1.Frame?
  {
    hide LengthField.FieldValue, LengthField.Announced;
  }

  /** Layouts of at most four length bytes under which no header can announce a negative or wrapped length. */
  predicate NarrowLengths(lf: LengthField)
  {
    && 0 < lf.EndOffset() && lf.width != 8
    && 0 <= lf.adjustment + lf.EndOffset() <= TWO_63 - TWO_32
  }

  /** Under such a layout the memory stays consistent whatever bytes come in. */
  lemma {:induction false} NarrowNeverOverflows(lf: LengthField, d: Discard, buf: seq<byte>)
    requires NarrowLengths(lf)
    ensures NeverOverflows(lf, d, buf)
    decreases |buf|, d.active
  {
    hide Step, Overflows;
    StepFacts(lf, d, buf);
    NarrowHeader(lf, buf[Dropped(d, buf)..]);
    var (d1, o) := Step(lf, d, buf);
    if !o.Frame? || Stuck(lf, d, o.data) {
    } else {
      NarrowNeverOverflows(lf, d1, buf[|o.data| + lf.strip..]);
    }
  }

  lemma NarrowHeader(lf: LengthField, rest: seq<byte>)
    requires NarrowLengths(lf)
    ensures !Overflows(lf, rest)
  {
    if lf.Readable(rest) {
      lf.FieldBound(rest[lf.offset..lf.offset + lf.width]);
    }
  }

  /** With eight length bytes a header overflows exactly when its number is within the correction of 2^63. */
  lemma WideOverflowsExactly(lf: LengthField, rest: seq<byte>)
    requires lf.WellFormed() && lf.width == 8 && lf.EndOffset() <= |rest|
    requires 0 <= lf.adjustment + lf.EndOffset() < TWO_63 && lf.maxFrameLength < TWO_63
    ensures var head := rest[lf.offset..lf.offset + 8];
            var v := if lf.order == LittleEndian then FromLittleEndian(head) else FromBigEndian(head);
            Overflows(lf, rest) <==> TWO_63 - (lf.adjustment + lf.EndOffset()) <= v < TWO_63
  {
    var head := rest[lf.offset..lf.offset + 8];
    BigEndianBound(head);
    LittleEndianBound(head);
    assert Pow256(2) == 0x1_0000 && Pow256(4) == TWO_32 && Pow256(6) == 0x1_0000 * TWO_32;
  }

  /** Eight length bytes and nothing else, frames of at most 100 bytes. */
  const WIDE := LengthField(BigEndian, 100, 0, 8, 0, 0)

  /** The largest number its field can hold overflows, and spoils the memory. */
  lemma OverflowHappens()
    ensures var header := [0x7F, 0xFF, 0xFF, 0xFF, 0xFF, 0xFF, 0xFF, 0xFF];
            Overflows(WIDE, header) && !MemoryConsistent(WIDE, Step(WIDE, IDLE, header).0)
  {
    hide Step, MemoryConsistent, Overflows;
    var header := [0x7F, 0xFF, 0xFF, 0xFF, 0xFF, 0xFF, 0xFF, 0xFF];
    assert header[0..8] == header && header[0..] == header;
    LargestNumber(header);
    WideOverflowsExactly(WIDE, header);
    IdleConsistent(WIDE);
    DiscardMemoryKept(WIDE, IDLE, header);
  }

  lemma LargestNumber(s: seq<byte>)
    requires s == [0x7F, 0xFF, 0xFF, 0xFF, 0xFF, 0xFF, 0xFF, 0xFF]
    ensures FromBigEndian(s) == TWO_63 - 1
  {
    assert FromBigEndian(s[..4]) == 0x7FFF_FFFF by {
      BigEndianFour(s[..4]);
    }
    assert s[..7][..6] == s[..6] && s[..6][..5] == s[..5] && s[..5][..4] == s[..4];
    assert FromBigEndian(s[..5]) == 0x7F_FFFF_FFFF;
    assert FromBigEndian(s[..6]) == 0x7FFF_FFFF_FFFF;
    assert FromBigEndian(s[..7]) == 0x7F_FFFF_FFFF_FFFF;
  }

  lemma IdleConsistent(lf: LengthField)
    ensures MemoryConsistent(lf, IDLE)
  {
  }

  /** The bytes that the frames took from the buffer. */
  function Taken(lf: LengthField, frames: seq<seq<byte>>): int
  {
    TotalLength(frames) + |frames| * lf.strip
  }

  lemma TakenOneMore(lf: LengthField, f: seq<byte>, frames: seq<seq<byte>>)
    ensures Taken(lf, [f] + frames) == |f| + lf.strip + Taken(lf, frames)
  {
    assert ([f] + frames)[1..] == frames;
    Distribute(|frames|, lf.strip);
  }

  /**
   Whatever the layout, the memory and the bytes, and however the call ends: the buffer loses from its
   front the frames it delivered with their stripped bytes, and nothing else, not even what it dropped.
   */
  lemma {:induction false} LoopConservesBytes(lf: LengthField, d: Discard, buf: seq<byte>)
    ensures var got := Drain(lf, d, buf);
            && |got.rest| <= |buf| && got.rest == buf[|buf| - |got.rest|..]
            && Taken(lf, got.frames) + |got.rest| == |buf|
    decreases |buf|, d.active
  {
    hide Step, Taken;
    StepFacts(lf, d, buf);
    NothingTaken(lf);
    var (d1, o) := Step(lf, d, buf);
    if !o.Frame? || Stuck(lf, d, o.data) {
    } else {
      var rest := buf[|o.data| + lf.strip..];
      LoopConservesBytes(lf, d1, rest);
      TakenOneMore(lf, o.data, Drain(lf, d1, rest).frames);
    }
  }

  lemma NothingTaken(lf: LengthField)
    ensures Taken(lf, []) == 0
  {
  }

  /**
   A step panics exactly when the bytes left after dropping reach the end of the length field, and
   that field cannot be read, holds a negative number, announces less than is to be stripped from a
   frame all there, or announces a length below zero that is not taken for an over-long one.
   */
  lemma PanicsExactly(lf: LengthField, d: Discard, buf: seq<byte>)
    requires |buf| < TWO_63
    ensures var rest := buf[Dropped(d, buf)..];
            var readable := 0 <= lf.offset && lf.width in {1, 2, 3, 4, 8} && lf.offset + lf.width <= |rest|;
            var bad := readable && (
              || lf.FieldValue(rest) < 0
              || (var n: int := lf.Announced(rest);
                  if n < 0 then TWO_64 + n <= lf.maxFrameLength || -TWO_63 <= n - |rest|
                  else n <= lf.maxFrameLength && n <= |rest| && (n < lf.strip || lf.strip < 0)));
            Step(lf, d, buf).1.Panic? <==> lf.EndOffset() <= |rest| && (!readable || bad)
  {
    hide LengthField.FieldValue, LengthField.Announced;
  }

  /** Layouts whose every header announces at least one byte and at least the stripped prefix. */
  predicate AlwaysCuttable(lf: LengthField)
  {
    && lf.WellFormed() && NarrowLengths(lf)
    && 1 <= lf.adjustment + lf.EndOffset() && lf.strip <= lf.adjustment + lf.EndOffset()
  }

  lemma CuttableStep(lf: LengthField, d: Discard, buf: seq<byte>)
    requires AlwaysCuttable(lf)
    ensures !Step(lf, d, buf).1.Panic?
    ensures Step(lf, d, buf).1.Frame? ==> !Stuck(lf, d, Step(lf, d, buf).1.data)
  {
    var rest := buf[Dropped(d, buf)..];
    if |rest| >= lf.EndOffset() {
      lf.FieldBound(rest[lf.offset..lf.offset + lf.width]);
      hide LengthField.Readable;
    }
  }

  /** Under such a layout no bytes at all, over-long frames included, make a call panic or loop for ever. */
  lemma {:induction false} CuttableAlwaysReturns(lf: LengthField, d: Discard, buf: seq<byte>)
    requires AlwaysCuttable(lf)
    ensures Drain(lf, d, buf).ending == Returned
    decreases |buf|, d.active
  {
    hide Step;
    CuttableStep(lf, d, buf);
    StepFacts(lf, d, buf);
    var (d1, o) := Step(lf, d, buf);
    if !o.Frame? {
    } else {
      CuttableAlwaysReturns(lf, d1, buf[|o.data| + lf.strip..]);
    }
  }

  /** The loop delivers the frames of a splittable buffer, keeps the leftover and returns. */
  lemma {:induction false} SplittableDrains(lf: LengthField, buf: seq<byte>)
    requires lf.WellFormed() && Splittable(lf, buf)
    ensures Drain(lf, IDLE, buf) == Drained(IDLE, Frames(lf, buf), Leftover(lf, buf), Returned)
    decreases |buf|
  {
    hide Step, Splittable, LengthField.FieldValue, LengthField.Announced;
    SplittableStep(lf, buf);
    if !HoldsFrame(lf, buf) {
    } else {
      SplittableDrains(lf, buf[lf.Announced(buf)..]);
    }
  }

  lemma SplittableStep(lf: LengthField, buf: seq<byte>)
    requires lf.WellFormed() && Splittable(lf, buf)
    ensures Step(lf, IDLE, buf)
         == (IDLE, if HoldsFrame(lf, buf) then Frame(buf[lf.strip..lf.Announced(buf)]) else Incomplete)
    ensures HoldsFrame(lf, buf) ==> Splittable(lf, buf[lf.Announced(buf)..])
  {
    hide LengthField.FieldValue, LengthField.Announced;
    assert buf[0..] == buf;
  }

  /** Within limits the loop delivers the frames of the buffer, keeps the leftover and returns. */
  lemma {:induction false} LoopCutsFrames(lf: LengthField, buf: seq<byte>)
    requires lf.WellFormed() && WithinLimits(lf, buf)
    ensures Drain(lf, IDLE, buf) == Drained(IDLE, Frames(lf, buf), Leftover(lf, buf), Returned)
  {
    WithinLimitsSplittable(lf, buf);
    SplittableDrains(lf, buf);
  }

  /** Feeding the pieces of a stream one call at a time. */
  function Feed(lf: LengthField, d: Discard, buf: seq<byte>, chunks: seq<seq<byte>>): Drained
    decreases |chunks|
  {
    if chunks == [] then
      Drained(d, [], buf, Returned)
    else
      var now := Drain(lf, d, buf + chunks[0]);
      if now.ending != Returned then
        now
      else
        var later := Feed(lf, now.memory, now.rest, chunks[1..]);
        later.(frames := now.frames + later.frames)
  }

  /** However a splittable stream is cut, the frames and the leftover are those of the whole stream. */
  lemma {:induction false} SplittableFeeds(lf: LengthField, buf: seq<byte>, chunks: seq<seq<byte>>)
    requires lf.WellFormed() && !HoldsFrame(lf, buf) && Splittable(lf, buf + Concat(chunks))
    ensures var s := buf + Concat(chunks);
            Feed(lf, IDLE, buf, chunks) == Drained(IDLE, Frames(lf, s), Leftover(lf, s), Returned)
    decreases |chunks|
  {
    hide Splittable;
    if chunks == [] {
      assert buf + Concat(chunks) == buf;
    } else {
      var now := buf + chunks[0];
      var s := buf + Concat(chunks);
      assert s == now + Concat(chunks[1..]);
      CutAnywhere(lf, now, Concat(chunks[1..]));
      SplittableDrains(lf, now);
      LeftoverHoldsNoFrame(lf, now);
      SplittableFeeds(lf, Leftover(lf, now), chunks[1..]);
    }
  }

  /** However a stream within limits is split, the frames and the leftover are those of the whole stream. */
  lemma {:induction false} ChunkIndependence(lf: LengthField, buf: seq<byte>, chunks: seq<seq<byte>>)
    requires lf.WellFormed() && !HoldsFrame(lf, buf) && WithinLimits(lf, buf + Concat(chunks))
    ensures var s := buf + Concat(chunks);
            Feed(lf, IDLE, buf, chunks) == Drained(IDLE, Frames(lf, s), Leftover(lf, s), Returned)
  {
    WithinLimitsSplittable(lf, buf + Concat(chunks));
    SplittableFeeds(lf, buf, chunks);
  }

  /** The call on the whole of `p` does what the definition of frames and leftover says. */
  predicate DrainsAsDefined(lf: LengthField, p: seq<byte>)
    requires lf.WellFormed()
  {
    Drain(lf, IDLE, p) == Drained(IDLE, Frames(lf, p), Leftover(lf, p), Returned)
  }

  /** So do the calls on `chunks`, if they are pieces of `p`. */
  predicate FeedsAsDefined(lf: LengthField, p: seq<byte>, chunks: seq<seq<byte>>)
    requires lf.WellFormed()
  {
    Concat(chunks) == p ==> Feed(lf, IDLE, [], chunks) == Drained(IDLE, Frames(lf, p), Leftover(lf, p), Returned)
  }

  /** However much of the stream has come in, and in whatever pieces, its frames and leftover are what came out. */
  ghost predicate SplitNeverMatters(lf: LengthField, s: seq<byte>)
    requires lf.WellFormed()
  {
    forall k: nat, chunks :: k <= |s| ==> FeedsAsDefined(lf, s[..k], chunks)
  }

  /**
   The split of a stream never matters exactly when each of its headers stands in front of an
   accepted frame or makes the decoder wait: under every readable layout, for every stream.
   */
  lemma SplitNeverMattersExactly(lf: LengthField, s: seq<byte>)
    requires lf.WellFormed()
    ensures SplitNeverMatters(lf, s) <==> Splittable(lf, s)
  {
    hide Splittable, Feed, Drain, Frames, Leftover;
    if Splittable(lf, s) {
      forall k: nat, chunks | k <= |s|
        ensures FeedsAsDefined(lf, s[..k], chunks)
      {
        SplittablePrefixFeeds(lf, s, k, chunks);
      }
    } else {
      var k := BadPrefix(lf, s);
      FeedOne(lf, IDLE, [], s[..k]);
      assert [] + s[..k] == s[..k];
      ConcatOne(s[..k]);
      assert !FeedsAsDefined(lf, s[..k], [s[..k]]);
    }
  }

  lemma ConcatOne(chunk: seq<byte>)
    ensures Concat([chunk]) == chunk
  {
    assert [chunk][1..] == [] && chunk + [] == chunk;
  }

  lemma SplittablePrefixFeeds(lf: LengthField, s: seq<byte>, k: nat, chunks: seq<seq<byte>>)
    requires lf.WellFormed() && Splittable(lf, s) && k <= |s|
    ensures FeedsAsDefined(lf, s[..k], chunks)
  {
    hide Splittable, Frames, Leftover, Feed;
    if Concat(chunks) == s[..k] {
      assert s[..k] + s[k..] == s && [] + Concat(chunks) == Concat(chunks);
      CutAnywhere(lf, s[..k], s[k..]);
      NoFrameInNothing(lf);
      SplittableFeeds(lf, [], chunks);
    }
  }

  lemma NoFrameInNothing(lf: LengthField)
    requires lf.WellFormed()
    ensures !HoldsFrame(lf, [])
  {
  }

  /** A stream that is not splittable has a beginning on which a single call already goes wrong. */
  lemma {:induction false} BadPrefix(lf: LengthField, s: seq<byte>) returns (k: nat)
    requires lf.WellFormed() && !Splittable(lf, s)
    ensures lf.EndOffset() <= k <= |s| && !DrainsAsDefined(lf, s[..k])
    decreases |s|
  {
    hide LengthField.FieldValue, LengthField.Announced;
    if !HoldsFrame(lf, s) {
      k := BadHeader(lf, s);
    } else {
      var n := lf.Announced(s);
      var later := BadPrefix(lf, s[n..]);
      k := n + later;
      assert s[..k][..n] == s[..n] && s[..k][n..] == s[n..][..later] && s[..k] + s[k..] == s;
      SkipFrame(lf, s[..k], s[k..]);
    }
  }

  /** The first frame makes no difference to whether a call goes wrong. */
  lemma SkipFrame(lf: LengthField, p: seq<byte>, more: seq<byte>)
    requires lf.WellFormed() && lf.EndOffset() <= |p|
    requires HoldsFrame(lf, p + more) && lf.Announced(p + more) <= |p|
    requires !DrainsAsDefined(lf, p[lf.Announced(p + more)..])
    ensures !DrainsAsDefined(lf, p)
  {
    hide LengthField.FieldValue, LengthField.Announced, Step;
    AnnouncedSeesHeaderOnly(lf, p, more);
    FrontFrame(lf, p);
    var n := lf.Announced(p);
    var rest := Drain(lf, IDLE, p[n..]);
    assert ([p[lf.strip..n]] + rest.frames)[1..] == rest.frames;
    assert ([p[lf.strip..n]] + Frames(lf, p[n..]))[1..] == Frames(lf, p[n..]);
  }

  lemma FrontFrame(lf: LengthField, p: seq<byte>)
    requires lf.WellFormed() && HoldsFrame(lf, p)
    ensures Step(lf, IDLE, p) == (IDLE, Frame(p[lf.strip..lf.Announced(p)]))
  {
    hide LengthField.FieldValue, LengthField.Announced;
    assert p[0..] == p;
  }

  /** What a refused header does as soon as it is there, or as soon as a prefix is to be stripped off it. */
  lemma BadHeader(lf: LengthField, s: seq<byte>) returns (k: nat)
    requires lf.WellFormed() && lf.EndOffset() <= |s| && !Waits(lf, s) && !HoldsFrame(lf, s)
    ensures lf.EndOffset() <= k <= |s| && !DrainsAsDefined(lf, s[..k])
  {
    hide LengthField.FieldValue, LengthField.Announced;
    var n, e := lf.Announced(s), lf.EndOffset();
    k := if 0 <= lf.FieldValue(s) && e < n <= lf.maxFrameLength then n else e;
    var p := s[..k];
    assert p + s[k..] == s && p[0..] == p;
    AnnouncedSeesHeaderOnly(lf, p, s[k..]);
  }

  /**
   Under layouts whose headers always announce at least one byte and the stripped prefix, and with
   room for a header, it never matters exactly within limits.
   */
  lemma SplitNeverMattersWithinLimits(lf: LengthField, s: seq<byte>)
    requires AlwaysCuttable(lf) && lf.EndOffset() <= lf.maxFrameLength
    ensures SplitNeverMatters(lf, s) <==> WithinLimits(lf, s)
  {
    hide SplitNeverMatters;
    SplitNeverMattersExactly(lf, s);
    SplittableWithinLimits(lf, s);
  }

  lemma {:induction false} SplittableWithinLimits(lf: LengthField, s: seq<byte>)
    requires AlwaysCuttable(lf) && lf.EndOffset() <= lf.maxFrameLength
    ensures Splittable(lf, s) <==> WithinLimits(lf, s)
    decreases |s|
  {
    if |s| < lf.EndOffset() {
    } else {
      lf.FieldBound(s[lf.offset..lf.offset + lf.width]);
      hide LengthField.FieldValue;
      if HoldsFrame(lf, s) {
        SplittableWithinLimits(lf, s[lf.Announced(s)..]);
      }
    }
  }

  /**
   An over-long frame that is wholly buffered, to its end or beyond, is never skipped: no later
   input, however it is split, makes the decoder deliver a frame again.
   */
  lemma {:induction false} BufferedOverLongFrameBlocks(lf: LengthField, buf: seq<byte>, chunks: seq<seq<byte>>)
    requires lf.WellFormed() && lf.EndOffset() <= |buf| && 0 <= lf.FieldValue(buf)
    requires lf.maxFrameLength < lf.Announced(buf) <= |buf|
    ensures Feed(lf, IDLE, buf, chunks) == Drained(IDLE, [], buf + Concat(chunks), Returned)
    decreases |chunks|
  {
    hide Step, LengthField.FieldValue, LengthField.Announced;
    if chunks == [] {
      assert buf + Concat(chunks) == buf;
    } else {
      var now := buf + chunks[0];
      OverLongStep(lf, buf, chunks[0]);
      assert Drain(lf, IDLE, now) == Drained(IDLE, [], now, Returned);
      BufferedOverLongFrameBlocks(lf, now, chunks[1..]);
      assert Concat(chunks) == chunks[0] + Concat(chunks[1..]);
      assert now + Concat(chunks[1..]) == buf + (chunks[0] + Concat(chunks[1..]));
    }
  }

  lemma OverLongStep(lf: LengthField, buf: seq<byte>, chunk: seq<byte>)
    requires lf.WellFormed() && lf.EndOffset() <= |buf| && 0 <= lf.FieldValue(buf)
    requires lf.maxFrameLength < lf.Announced(buf) <= |buf|
    ensures lf.FieldValue(buf + chunk) == lf.FieldValue(buf) && lf.Announced(buf + chunk) == lf.Announced(buf)
    ensures Step(lf, IDLE, buf + chunk) == (IDLE, Incomplete)
  {
    hide LengthField.FieldValue, LengthField.Announced;
    AnnouncedSeesHeaderOnly(lf, buf, chunk);
    assert (buf + chunk)[0..] == buf + chunk;
  }

  /**
   A stream whose first frame is over-long and not all there is remembered differently when it
   arrives in one piece and when it arrives cut behind its header.
   */
  lemma OverLongSplitMatters(lf: LengthField, s: seq<byte>)
    requires lf.WellFormed() && lf.EndOffset() < |s| && 0 <= lf.FieldValue(s)
    requires lf.maxFrameLength < lf.Announced(s) && |s| < lf.Announced(s)
    ensures var n, e := lf.Announced(s), lf.EndOffset();
            && Feed(lf, IDLE, [], [s]).memory == Discard(true, n, n - |s|)
            && Feed(lf, IDLE, [], [s[..e], s[e..]]).memory
            == (if |s| < n - e then Discard(true, n, n - e - |s|) else IDLE)
            && Feed(lf, IDLE, [], [s]).memory != Feed(lf, IDLE, [], [s[..e], s[e..]]).memory
  {
    hide Step, LengthField.FieldValue, LengthField.Announced;
    var n, e := lf.Announced(s), lf.EndOffset();
    assert [] + s == s && s + [] == s && [] + s[..e] == s[..e] && s[..e] + s[e..] == s;
    OverLongEnters(lf, s[..e], s[e..]);
    OverLongEnters(lf, s, []);
    OverLongGoesOn(lf, s);
    assert [s[..e], s[e..]][1..] == [s[e..]];
    assert Drain(lf, IDLE, s) == Drained(Discard(true, n, n - |s|), [], s, Returned);
    assert Drain(lf, IDLE, s[..e]) == Drained(Discard(true, n, n - e), [], s[..e], Returned);
    var d := if |s| < n - e then Discard(true, n, n - e - |s|) else IDLE;
    assert Drain(lf, Discard(true, n, n - e), s) == Drained(d, [], s, Returned);
    FeedOne(lf, IDLE, [], s);
    FeedOne(lf, Discard(true, n, n - e), s[..e], s[e..]);
  }

  lemma FeedOne(lf: LengthField, d: Discard, buf: seq<byte>, chunk: seq<byte>)
    ensures Feed(lf, d, buf, [chunk]) == Drain(lf, d, buf + chunk)
  {
    hide Drain;
    var now := Drain(lf, d, buf + chunk);
    assert [chunk][1..] == [] && now.frames + [] == now.frames;
  }

  lemma OverLongEnters(lf: LengthField, buf: seq<byte>, more: seq<byte>)
    requires lf.WellFormed() && lf.EndOffset() <= |buf| && 0 <= lf.FieldValue(buf + more)
    requires lf.maxFrameLength < lf.Announced(buf + more) && |buf| < lf.Announced(buf + more)
    ensures var n := lf.Announced(buf + more);
            Step(lf, IDLE, buf) == (Discard(true, n, n - |buf|), Incomplete)
  {
    hide LengthField.FieldValue, LengthField.Announced;
    AnnouncedSeesHeaderOnly(lf, buf, more);
    assert buf[0..] == buf;
  }

  lemma OverLongGoesOn(lf: LengthField, s: seq<byte>)
    requires lf.WellFormed() && lf.EndOffset() < |s| && |s| < lf.Announced(s)
    ensures var n, e := lf.Announced(s), lf.EndOffset();
            && Step(lf, Discard(true, n, n - e), s).1 == Incomplete
            && Step(lf, Discard(true, n, n - e), s).0 == if |s| < n - e then Discard(true, n, n - e - |s|) else IDLE
  {
    hide LengthField.FieldValue, LengthField.Announced;
  }

  /** A layout of one length byte and frames of at most three bytes. */
  const TINY := LengthField(BigEndian, 3, 0, 1, 0, 0)

  lemma TinyHeader(buf: seq<byte>)
    requires buf != []
    ensures TINY.Readable(buf) && TINY.FieldValue(buf) == buf[0] as int && TINY.Announced(buf) == buf[0] as int + 1
  {
    assert buf[0..1] == [buf[0]] && [buf[0]][..0] == [];
    assert FromBigEndian([]) == 0;
  }

  lemma TinySteps()
    ensures Step(TINY, IDLE, [4, 0, 0, 0, 0]) == (IDLE, Incomplete)
    ensures Step(TINY, IDLE, [4, 0]) == (Discard(true, 5, 3), Incomplete)
    ensures Step(TINY, Discard(true, 5, 3), [4, 0, 0, 0, 0]) == (IDLE, Frame([0]))
  {
    hide LengthField.FieldValue, LengthField.Announced;
    var whole, head, tail := [4, 0, 0, 0, 0], [4, 0], [0, 0];
    assert whole[0..] == whole && head[0..] == head && whole[3..] == tail && tail[0..1] == [0];
    TinyHeader(whole);
    TinyHeader(head);
    TinyHeader(tail);
  }

  /** Outside the limits the split of a stream matters: whole it holds no frame, in two pieces it holds some. */
  lemma SplitMattersBeyondLimits()
    ensures Feed(TINY, IDLE, [], [[4, 0, 0, 0, 0]]).frames == []
    ensures Feed(TINY, IDLE, [], [[4, 0], [0, 0, 0]]).frames != []
  {
    hide Step;
    TinySteps();
    var whole, head, tail := [4, 0, 0, 0, 0], [4, 0], [0, 0, 0];
    assert [] + whole == whole && [] + head == head && head + tail == whole;
    assert [head, tail][1..] == [tail];
    assert Drain(TINY, IDLE, whole) == Drained(IDLE, [], whole, Returned);
    assert Drain(TINY, IDLE, head) == Drained(Discard(true, 5, 3), [], head, Returned);
    assert Drain(TINY, Discard(true, 5, 3), whole).frames != [];
  }

  class FrameDecoder {
    const lf: LengthField
    const lengthFieldEndOffset: int64
    const failFast: bool
    var discardingTooLongFrame: bool
    var tooLongFrameLength: int64
    var bytesToDiscard: int64
    var received: seq<byte>

    ghost predicate Valid()
      reads this
    {
      0 <= bytesToDiscard && lengthFieldEndOffset == lf.EndOffset()
    }

    ghost function Memory(): Discard
      reads this
      requires Valid()
    {
      Discard(discardingTooLongFrame, tooLongFrameLength, bytesToDiscard)
    }

    constructor (lf: LengthField)
      ensures Valid() && Memory() == IDLE && received == []
      ensures this.lf.order == if lf.order == LittleEndian then LittleEndian else BigEndian
      ensures this.lf.maxFrameLength == lf.maxFrameLength && this.lf.offset == lf.offset && this.lf.width == lf.width
      ensures this.lf.adjustment == lf.adjustment && this.lf.strip == lf.strip
      ensures this.lf == lf.Normalized()
    {
      this.lf := lf.Normalized();
      lengthFieldEndOffset := lf.EndOffset();
      failFast := false;
      discardingTooLongFrame, tooLongFrameLength, bytesToDiscard := false, 0, 0;
      received := [];
    }

    method FailIfNecessary(firstDetectionOfTooLongFrame: bool)
      requires Valid()
      modifies this
      ensures Valid() && Memory() == Settle(old(Memory())) && received == old(received)
    {
      if bytesToDiscard == 0 {
        tooLongFrameLength := 0;
        discardingTooLongFrame := false;
      }
    }

    method DiscardTooLongFrame(buffer: seq<byte>) returns (rest: seq<byte>)
      requires Valid() && discardingTooLongFrame
      modifies this
      ensures Valid() && Memory() == AfterDropping(old(Memory()), buffer) && received == old(received)
      ensures rest == buffer[Dropped(old(Memory()), buffer)..]
    {
      var local := if bytesToDiscard <= |buffer| then bytesToDiscard else |buffer|;
      rest := buffer[local..];
      bytesToDiscard := bytesToDiscard - local;
      FailIfNecessary(false);
    }

    method ExceededFrameLength(available: nat, frameLength: int64) returns (o: Outcome)
      requires Valid()
      modifies this
      ensures Valid() && (Memory(), o) == Exceeded(old(Memory()), frameLength, available) && received == old(received)
    {
      var discard := if frameLength < 0 then Wrap64(frameLength - available) else frameLength - available;
      tooLongFrameLength := frameLength;
      if discard < 0 {
        if frameLength < 0 {
          return Panic(SliceOutOfRange);
        }
      } else {
        discardingTooLongFrame := true;
        bytesToDiscard := discard;
      }
      FailIfNecessary(true);
      o := Incomplete;
    }

    /** One attempt: the outcome and the new memory are those of `Step`; the buffer itself stays. */
    method DecodeOne(buf: seq<byte>) returns (o: Outcome)
      requires Valid()
      modifies this
      ensures Valid() && (Memory(), o) == Step(lf, old(Memory()), buf) && received == old(received)
    {
      hide LengthField.FieldValue, LengthField.Readable;
      var rest := buf;
      if discardingTooLongFrame {
        rest := DiscardTooLongFrame(rest);
      }
      if |rest| < lengthFieldEndOffset {
        return Incomplete;
      }
      if !lf.Readable(rest) {
        return Panic(UnsupportedField);
      }
      var frameLength := lf.FieldValue(rest);
      if frameLength < 0 {
        return Panic(NegativeLength);
      }
      frameLength := Wrap64(frameLength + lf.adjustment + lengthFieldEndOffset);
      if Unsigned64(frameLength) > lf.maxFrameLength {
        o := ExceededFrameLength(|rest|, frameLength);
        return;
      }
      if |rest| < frameLength {
        return Incomplete;
      }
      if lf.strip > frameLength {
        return Panic(ShorterThanStrip);
      }
      if lf.strip < 0 {
        return Panic(SliceOutOfRange);
      }
      rest := rest[lf.strip..];
      o := Frame(rest[..frameLength - lf.strip]);
      assert rest[..frameLength - lf.strip] == buf[Dropped(old(Memory()), buf)..][lf.strip..frameLength];
    }

    /**
     Takes in a chunk and delivers every frame now complete. When `ending` is `Panicked` the caller
     never sees `frames`; when it is `Spinning` the loop never gives control back.
     */
    method Decode(buff: seq<byte>) returns (frames: seq<seq<byte>>, ending: Ending)
      requires Valid()
      modifies this
      ensures Valid()
      ensures Drained(Memory(), frames, received, ending) == Drain(lf, old(Memory()), old(received) + buff)
      ensures lf.WellFormed() && old(Memory()) == IDLE && WithinLimits(lf, old(received) + buff) ==>
                && ending == Returned && Memory() == IDLE
                && frames == Frames(lf, old(received) + buff)
                && received == Leftover(lf, old(received) + buff)
    {
      hide Step;
      received := received + buff;
      ghost var start, whole := Memory(), received;
      frames := [];
      ghost var goal := Drain(lf, start, whole);
      while true
        invariant Valid()
        invariant goal == Resumed(frames, Drain(lf, Memory(), received))
        decreases |received|, discardingTooLongFrame
      {
        ghost var before := Memory();
        var wasDiscarding := discardingTooLongFrame;
        var o := DecodeOne(received);
        if o.Frame? {
          FrameTurn(lf, before, received, frames);
        } else {
          LastTurn(lf, before, received, frames);
        }
        if o.Incomplete? {
          ending := Returned;
          break;
        } else if o.Panic? {
          ending := Panicked;
          break;
        }
        var arr := o.data;
        var size := |arr| + lf.strip;
        if size == 0 && !wasDiscarding {
          ending := Spinning;
          break;
        }
        frames := frames + [arr];
        if size > 0 {
          received := received[size..];
        }
      }
      if lf.WellFormed() && WithinLimits(lf, whole) && start == IDLE {
        LoopCutsFrames(lf, whole);
      }
    }
  }
}
