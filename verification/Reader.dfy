/** What a connection's reader does with each chunk: decode frames, decode messages, make requests. */
module Reader {
  import opened Bytes
  import opened Framing
  import opened Messages
  import opened Options
  import opened Pipeline
  import FD = FrameDecoding

  class Connection {
    const connID: ConnId
    const kind: Kind
    const frameDecoder: FD.FrameDecoder

    ghost predicate Valid()
      reads this, frameDecoder
    {
      frameDecoder.Valid() && frameDecoder.lf == Layout(kind) && frameDecoder.Memory() == FD.IDLE
    }

    constructor (connID: ConnId, kind: Kind)
      ensures Valid() && fresh(frameDecoder) && this.connID == connID && this.kind == kind
      ensures frameDecoder.received == []
    {
      this.connID, this.kind := connID, kind;
      frameDecoder := new FD.FrameDecoder(Preset(kind));
    }

    /**
     Takes in a chunk. The requests are those of the frames it completes, in order; when a frame's
     decoding panics the reader ends there and the later frames are dropped.
     */
    method OnRead(chunk: seq<byte>) returns (requests: seq<Request>, alive: bool)
      requires Valid()
      modifies frameDecoder
      ensures Valid()
      ensures var stream := old(frameDecoder.received) + chunk;
              var frames := Frames(Layout(kind), stream);
              && frameDecoder.received == Leftover(Layout(kind), stream)
              && |requests| <= |frames|
              && (forall i :: 0 <= i < |requests| ==> ToRequest(kind, connID, frames[i]) == Some(requests[i]))
              && (alive <==> |requests| == |frames|)
              && (!alive ==> ToRequest(kind, connID, frames[|requests|]) == None)
    {
      hide WithinLimits, Frames, Leftover, DecodePacket, FD.Drain;
      ghost var stream := frameDecoder.received + chunk;
      PresetAlwaysWithinLimits(kind, stream);
      var frames, ending := frameDecoder.Decode(chunk);
      requests := [];
      var i := 0;
      while i < |frames|
        invariant Valid() && frameDecoder.received == Leftover(Layout(kind), stream)
        invariant 0 <= i <= |frames| && |requests| == i
        invariant forall j :: 0 <= j < i ==> ToRequest(kind, connID, frames[j]) == Some(requests[j])
      {
        var msg := new Message.Received(|frames[i]| % TWO_32, frames[i]);
        var r := Intercept(kind, msg);
        if r == Panicked {
          return requests, false;
        }
        requests := requests + [Request(connID, msg.id, msg.data)];
        i := i + 1;
      }
      alive := true;
    }
  }
}
