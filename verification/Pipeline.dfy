/**
 From a peer's packed bytes to the workers, as interleaved atomic steps of readers and workers:
 one reader a connection, one bounded queue a worker, worker ids from a free set or a modulus.
 */
module Pipeline {
  import opened Bytes
  import opened Framing
  import opened Messages
  import opened Options
  import FD = FrameDecoding

  type ConnId = nat

  datatype Request = Request(conn: ConnId, id: uint32, data: seq<byte>)

  /** What stays fixed during a run; `sent` is what the peer of each connection packed. */
  datatype Config = Config(kind: Kind, bind: bool, poolSize: nat, capacity: nat, sent: map<ConnId, seq<Msg>>)

  datatype Reader = Waiting | Reading | Exited

  /** A connection: its reader, its worker id, and its bytes on the way to the queue. */
  datatype Conn = Conn(
    reader: Reader, worker: nat, holding: bool,
    unread: seq<byte>, memory: FD.Discard, buffered: seq<byte>, frames: seq<seq<byte>>)

  /** `taken` records the requests the workers took out of their queues, in order. */
  datatype State = State(conns: map<ConnId, Conn>, free: set<nat>, queues: seq<seq<Request>>, taken: seq<Request>)

  datatype Step =
    | Start(c: ConnId, w: nat)
    | Read(c: ConnId, n: nat)
    | Dispatch(c: ConnId)
    | Take(w: nat)
    | Exit(c: ConnId)
    | Release(c: ConnId)

  function Below(n: nat): (ids: set<nat>)
    ensures forall w: nat :: w in ids <==> w < n
  {
    if n == 0 then {} else Below(n - 1) + {n - 1}
  }

  function Init(cfg: Config): State
  {
    State(
      map c | c in cfg.sent :: Conn(Waiting, 0, false, Concat(PackedEach(cfg.kind, cfg.sent[c])), FD.IDLE, [], []),
      if cfg.bind then Below(cfg.poolSize) else {},
      seq(cfg.poolSize, _ => []),
      [])
  }

  /** Worker ids that may be handed to `c`: any free one, or the modulus when none is free. */
  predicate MayGet(cfg: Config, s: State, c: ConnId, w: nat)
    requires 0 < cfg.poolSize
  {
    if cfg.bind && s.free != {} then w in s.free else w == c % cfg.poolSize
  }

  /** The request a frame becomes, or none when the decoder stage panics. */
  function ToRequest(k: Kind, c: ConnId, frame: seq<byte>): Option<Request>
  {
    if |frame| < HEADER then
      Some(Request(c, 0, frame))
    else
      match DecodePacket(k, frame)
      case Some(p) => Some(Request(c, p.tag, p.value))
      case None => None
  }

  /** Whether a step can be taken; a reader waits while its worker's queue is full. */
  predicate Enabled(cfg: Config, s: State, step: Step)
    requires 0 < cfg.poolSize
  {
    match step
    case Start(c, w) => c in s.conns && s.conns[c].reader == Waiting && MayGet(cfg, s, c, w)
    case Read(c, n) =>
      c in s.conns && s.conns[c].reader == Reading && s.conns[c].frames == [] && n <= |s.conns[c].unread|
    case Dispatch(c) =>
      && c in s.conns
      && s.conns[c].reader == Reading
      && s.conns[c].frames != []
      && (ToRequest(cfg.kind, c, s.conns[c].frames[0]).Some? ==>
            s.conns[c].worker < |s.queues| && |s.queues[s.conns[c].worker]| < cfg.capacity)
    case Take(w) => w < |s.queues| && s.queues[w] != []
    case Exit(c) => c in s.conns && s.conns[c].reader == Reading
    case Release(c) => c in s.conns && s.conns[c].holding
  }

  /** The connection after reading `n` bytes: the decoder's frames wait, a panic ends the reader. */
  function AfterRead(k: Kind, x: Conn, n: nat): Conn
    requires n <= |x.unread|
  {
    var got := FD.Drain(Layout(k), x.memory, x.buffered + x.unread[..n]);
    if got.ending == FD.Returned then
      x.(unread := x.unread[n..], memory := got.memory, buffered := got.rest, frames := got.frames)
    else
      x.(reader := Exited, unread := x.unread[n..])
  }

  function Started(cfg: Config, s: State, c: ConnId, w: nat): State
    requires c in s.conns
  {
    s.(conns := s.conns[c := s.conns[c].(reader := Reading, worker := w, holding := true)],
       free := if cfg.bind then s.free - {w} else s.free)
  }

  function WithConn(s: State, c: ConnId, x: Conn): State
  {
    s.(conns := s.conns[c := x])
  }

  /** The next frame gone from the reader and its request at the end of the worker's queue. */
  function Queued(s: State, c: ConnId, r: Request): State
    requires c in s.conns && s.conns[c].frames != [] && s.conns[c].worker < |s.queues|
  {
    var x := s.conns[c];
    s.(conns := s.conns[c := x.(frames := x.frames[1..])],
       queues := s.queues[x.worker := s.queues[x.worker] + [r]])
  }

  function TakenBy(s: State, w: nat): State
    requires w < |s.queues| && s.queues[w] != []
  {
    s.(queues := s.queues[w := s.queues[w][1..]], taken := s.taken + [s.queues[w][0]])
  }

  function Released(cfg: Config, s: State, c: ConnId): State
    requires c in s.conns
  {
    s.(conns := s.conns[c := s.conns[c].(holding := false)],
       free := if cfg.bind then s.free + {s.conns[c].worker} else s.free)
  }

  function Apply(cfg: Config, s: State, step: Step): State
    requires 0 < cfg.poolSize && Enabled(cfg, s, step)
  {
    match step
    case Start(c, w) => Started(cfg, s, c, w)
    case Read(c, n) => WithConn(s, c, AfterRead(cfg.kind, s.conns[c], n))
    case Dispatch(c) =>
      (match ToRequest(cfg.kind, c, s.conns[c].frames[0])
       case None => WithConn(s, c, s.conns[c].(reader := Exited))
       case Some(r) => Queued(s, c, r))
    case Take(w) => TakenBy(s, w)
    case Exit(c) => WithConn(s, c, s.conns[c].(reader := Exited))
    case Release(c) => Released(cfg, s, c)
  }

  /** The id without a free one: below the pool's size, and different from `c` by whole pools. */
  lemma MayGetExactly(cfg: Config, s: State, c: ConnId, w: nat)
    requires 0 < cfg.poolSize
    ensures MayGet(cfg, s, c, w)
       <==> if cfg.bind && s.free != {} then w in s.free else w < cfg.poolSize && (c - w) % cfg.poolSize == 0
  {
    if !(cfg.bind && s.free != {}) {
      ModulusExactly(c, w, cfg.poolSize);
    }
  }

  lemma ModulusExactly(c: nat, w: nat, size: nat)
    requires 0 < size
    ensures w == c % size <==> w < size && (c - w) % size == 0
  {
    assert c == size * (c / size) + c % size;
    if w == c % size {
      assert c - w == size * (c / size) + 0;
      MultipleIsZero(size, c / size);
    } else if w < size && (c - w) % size == 0 {
      assert c - w == size * ((c - w) / size);
      SameModulus(c, w, size, (c - w) / size);
    }
  }

  /** A multiple of `size` other than zero is at least that far from zero. */
  lemma FarFromZero(size: int, q: int)
    requires 0 < size
    ensures 1 <= q ==> size <= size * q
    ensures q <= -1 ==> size * q <= -size
  {
    assert size * q == size + size * (q - 1) == -size + size * (q + 1);
  }

  lemma MultipleIsZero(size: nat, q: int)
    requires 0 < size
    ensures (size * q) % size == 0
  {
    var m, d := (size * q) % size, (size * q) / size;
    assert size * q == size * d + m;
    assert m == size * (q - d);
    FarFromZero(size, q - d);
  }

  lemma SameModulus(c: nat, w: nat, size: nat, q: int)
    requires 0 < size && w < size && c - w == size * q
    ensures c % size == w
  {
    var m, d := c % size, c / size;
    assert c == size * d + m;
    assert w - m == size * (d - q);
    FarFromZero(size, d - q);
  }

  // ----- order, completeness and separation of the messages

  /** The requests of one connection among a list. */
  function Of(c: ConnId, rs: seq<Request>): seq<Request>
  {
    if rs == [] then [] else (if rs[0].conn == c then [rs[0]] else []) + Of(c, rs[1..])
  }

  lemma {:induction false} OfConcat(c: ConnId, a: seq<Request>, b: seq<Request>)
    ensures Of(c, a + b) == Of(c, a) + Of(c, b)
  {
    if a == [] {
      assert a + b == b;
    } else {
      assert (a + b)[1..] == a[1..] + b;
      OfConcat(c, a[1..], b);
      var head := if a[0].conn == c then [a[0]] else [];
      assert Of(c, a + b) == head + (Of(c, a[1..]) + Of(c, b));
      assert Of(c, a) == head + Of(c, a[1..]);
    }
  }

  lemma OfOne(c: ConnId, r: Request)
    ensures Of(c, [r]) == if r.conn == c then [r] else []
  {
    assert [r][1..] == [];
  }

  /** The messages of a connection as the requests they should become. */
  function Sent(c: ConnId, ms: seq<Msg>): (rs: seq<Request>)
    ensures |rs| == |ms|
  {
    seq(|ms|, i requires 0 <= i < |ms| => Request(c, ms[i].id, ms[i].data))
  }

  /** Payloads whose length the 32-bit length field can say. */
  predicate Sendable(cfg: Config)
  {
    forall c <- cfg.sent :: forall m <- cfg.sent[c] :: |m.data| < TWO_32
  }

  /** The requests of a connection that reached its queue, taken or not. */
  function Arrived(s: State, c: ConnId, w: nat): seq<Request>
    requires w < |s.queues|
  {
    Of(c, s.taken) + Of(c, s.queues[w])
  }

  /**
   A connection's account: what arrived is the first of its messages, and while its reader runs,
   the frames at hand and those still in its bytes are exactly the rest.
   */
  predicate Account(k: Kind, c: ConnId, ms: seq<Msg>, x: Conn, arrived: seq<Request>)
  {
    var n := |arrived|;
    && x.memory == FD.IDLE
    && n <= |ms|
    && arrived == Sent(c, ms[..n])
    && match x.reader
       case Waiting => n == 0 && x.buffered == [] && x.frames == [] && x.unread == Concat(PackedEach(k, ms))
       case Reading =>
         && !HoldsFrame(Layout(k), x.buffered)
         && x.frames + Frames(Layout(k), x.buffered + x.unread) == PackedEach(k, ms[n..])
         && Leftover(Layout(k), x.buffered + x.unread) == []
       case Exited => true
  }

  lemma StartAccount(k: Kind, c: ConnId, ms: seq<Msg>, x: Conn, w: nat)
    requires x.reader == Waiting && Account(k, c, ms, x, [])
    requires forall m <- ms :: |m.data| < TWO_32
    ensures Account(k, c, ms, x.(reader := Reading, worker := w, holding := true), [])
  {
    hide Frames, Leftover, Packed, Concat, HoldsFrame, Layout, PackedEach;
    StreamOfPacked(k, ms);
    NothingBuffered(k);
    assert [] + x.unread == x.unread && ms[0..] == ms;
    assert [] + PackedEach(k, ms) == PackedEach(k, ms);
  }

  lemma ReadAccount(k: Kind, c: ConnId, ms: seq<Msg>, x: Conn, n: nat, arrived: seq<Request>)
    requires x.reader == Reading && x.frames == [] && n <= |x.unread| && Account(k, c, ms, x, arrived)
    ensures AfterRead(k, x, n).reader == Reading
    ensures AfterRead(k, x, n).worker == x.worker && AfterRead(k, x, n).holding == x.holding
    ensures Account(k, c, ms, AfterRead(k, x, n), arrived)
  {
    hide Frames, Leftover, HoldsFrame, Layout, PackedEach, WithinLimits, FD.Drain, Sent;
    var lf := Layout(k);
    var now, later := x.buffered + x.unread[..n], x.unread[n..];
    assert x.buffered + x.unread == now + later;
    PresetAlwaysWithinLimits(k, now);
    PresetAlwaysWithinLimits(k, now + later);
    FD.LoopCutsFrames(lf, now);
    CutAnywhere(lf, now, later);
    LeftoverHoldsNoFrame(lf, now);
    assert [] + Frames(lf, now + later) == Frames(lf, now + later);
  }

  /** The frame at hand is the next message packed, and behind it the later ones. */
  lemma NextFrame(k: Kind, ms: seq<Msg>, n: nat, frames: seq<seq<byte>>, more: seq<seq<byte>>)
    requires n <= |ms| && frames != [] && frames + more == PackedEach(k, ms[n..])
    ensures n < |ms| && frames[0] == Packed(k, ms[n])
    ensures frames[1..] + more == PackedEach(k, ms[n + 1..])
  {
    hide Packed;
    var rest := PackedEach(k, ms[n..]);
    assert frames[0] == (frames + more)[0] == rest[0];
    assert frames[1..] + more == (frames + more)[1..];
    assert ms[n..][1..] == ms[n + 1..];
    assert rest[1..] == PackedEach(k, ms[n..][1..]);
  }

  lemma NextArrived(c: ConnId, ms: seq<Msg>, n: nat)
    requires n < |ms|
    ensures Sent(c, ms[..n]) + [Request(c, ms[n].id, ms[n].data)] == Sent(c, ms[..n + 1])
  {
  }

  /** The next frame is the next message; decoding gives its request, or panics near the 32-bit edge. */
  lemma DispatchAccount(k: Kind, c: ConnId, ms: seq<Msg>, x: Conn, arrived: seq<Request>)
    requires x.reader == Reading && x.frames != [] && Account(k, c, ms, x, arrived)
    requires forall m <- ms :: |m.data| < TWO_32
    ensures match ToRequest(k, c, x.frames[0])
            case Some(r) => r.conn == c && Account(k, c, ms, x.(frames := x.frames[1..]), arrived + [r])
            case None => |ms[|arrived|].data| > TWO_32 - 9
    ensures |arrived| < |ms|
  {
    hide Frames, Leftover, HoldsFrame, Layout, Packed, DecodePacket, PackedEach, Sent;
    var n := |arrived|;
    NextFrame(k, ms, n, x.frames, Frames(Layout(k), x.buffered + x.unread));
    NextArrived(c, ms, n);
    DecodePacked(k, ms[n]);
    if DecodePacket(k, x.frames[0]).Some? {
      DecodedOrNot(k, ms[n]);
      assert ToRequest(k, c, x.frames[0]) == Some(Request(c, ms[n].id, ms[n].data));
    }
  }

  lemma DecodedOrNot(k: Kind, m: Msg)
    requires |m.data| < TWO_32 && HEADER <= |Packed(k, m)| && DecodePacket(k, Packed(k, m)).Some?
    ensures DecodePacket(k, Packed(k, m)) == Some(Packet(m.id, |m.data|, m.data))
  {
    hide Packed, DecodePacket;
    DecodePacked(k, m);
  }

  /** Every request of `c` not yet taken waits in the queue of its worker. */
  predicate Placed(s: State, c: ConnId, w: nat)
  {
    w < |s.queues| && forall v :: 0 <= v < |s.queues| && v != w ==> Of(c, s.queues[v]) == []
  }

  predicate ConnOk(cfg: Config, s: State, c: ConnId)
    requires c in s.conns && c in cfg.sent
  {
    && Placed(s, c, s.conns[c].worker)
    && Account(cfg.kind, c, cfg.sent[c], s.conns[c], Arrived(s, c, s.conns[c].worker))
  }

  /** The invariant of every run. */
  predicate Ok(cfg: Config, s: State)
  {
    && |s.queues| == cfg.poolSize
    && s.conns.Keys == cfg.sent.Keys
    && s.free <= Below(cfg.poolSize)
    && forall c <- s.conns :: ConnOk(cfg, s, c)
  }

  lemma InitOk(cfg: Config)
    requires 0 < cfg.poolSize
    ensures Ok(cfg, Init(cfg))
  {
    hide Layout, Frames, Leftover, HoldsFrame;
  }

  /** A connection whose record, queue contents and taken requests stay keeps its account. */
  lemma Unmoved(cfg: Config, s: State, t: State, c: ConnId)
    requires c in s.conns && c in cfg.sent && ConnOk(cfg, s, c)
    requires c in t.conns && t.conns[c] == s.conns[c] && |t.queues| == |s.queues|
    requires forall v :: 0 <= v < |s.queues| ==> Of(c, t.queues[v]) == Of(c, s.queues[v])
    requires Of(c, t.taken) == Of(c, s.taken)
    ensures ConnOk(cfg, t, c)
  {
    hide Account, Of;
  }

  /** A new record for one connection that leaves queues and taken requests alone. */
  lemma WithConnOk(cfg: Config, s: State, c: ConnId, x: Conn)
    requires Ok(cfg, s) && c in s.conns && x.worker == s.conns[c].worker
    requires Account(cfg.kind, c, cfg.sent[c], x, Arrived(s, c, x.worker))
    ensures Ok(cfg, WithConn(s, c, x))
  {
    hide Account, Of;
    var t := WithConn(s, c, x);
    forall d | d in t.conns
      ensures ConnOk(cfg, t, d)
    {
      assert ConnOk(cfg, s, d);
    }
  }

  lemma StartOk(cfg: Config, s: State, c: ConnId, w: nat)
    requires Sendable(cfg) && Ok(cfg, s) && c in s.conns && s.conns[c].reader == Waiting && w < cfg.poolSize
    ensures Ok(cfg, Started(cfg, s, c, w))
  {
    hide Account, Of;
    var t := Started(cfg, s, c, w);
    NothingArrived(cfg, s, c);
    StartAccount(cfg.kind, c, cfg.sent[c], s.conns[c], w);
    forall d | d in t.conns
      ensures ConnOk(cfg, t, d)
    {
      assert ConnOk(cfg, s, d);
    }
  }

  lemma NothingArrived(cfg: Config, s: State, c: ConnId)
    requires Ok(cfg, s) && c in s.conns && s.conns[c].reader == Waiting
    ensures Of(c, s.taken) == [] && forall v :: 0 <= v < |s.queues| ==> Of(c, s.queues[v]) == []
    ensures Account(cfg.kind, c, cfg.sent[c], s.conns[c], [])
  {
    hide Of, Concat, PackedEach, Sent;
    assert ConnOk(cfg, s, c);
    assert |Arrived(s, c, s.conns[c].worker)| == 0;
    assert Arrived(s, c, s.conns[c].worker) == [];
  }

  lemma QueuedOk(cfg: Config, s: State, c: ConnId, r: Request)
    requires Ok(cfg, s) && c in s.conns && s.conns[c].frames != [] && s.conns[c].worker < |s.queues| && r.conn == c
    requires var x := s.conns[c];
             Account(cfg.kind, c, cfg.sent[c], x.(frames := x.frames[1..]), Arrived(s, c, x.worker) + [r])
    ensures Ok(cfg, Queued(s, c, r))
  {
    hide Account, Of, ConnOk, Queued;
    var t := Queued(s, c, r);
    QueuedKeeps(s, c, r);
    forall d | d in t.conns
      ensures ConnOk(cfg, t, d)
    {
      assert ConnOk(cfg, s, d);
      if d == c {
        QueuedOwn(cfg, s, c, r);
      } else {
        QueuedOther(s, c, r, d);
        Unmoved(cfg, s, t, d);
      }
    }
  }

  lemma QueuedKeeps(s: State, c: ConnId, r: Request)
    requires c in s.conns && s.conns[c].frames != [] && s.conns[c].worker < |s.queues|
    ensures var t := Queued(s, c, r);
            && t.conns.Keys == s.conns.Keys && t.free == s.free && t.taken == s.taken && |t.queues| == |s.queues|
            && forall d <- s.conns :: d != c ==> t.conns[d] == s.conns[d]
  {
  }

  lemma QueuedOther(s: State, c: ConnId, r: Request, d: ConnId)
    requires c in s.conns && s.conns[c].frames != [] && s.conns[c].worker < |s.queues| && r.conn == c != d
    ensures forall v :: 0 <= v < |s.queues| ==> Of(d, Queued(s, c, r).queues[v]) == Of(d, s.queues[v])
  {
    hide Of;
    var q := s.queues[s.conns[c].worker];
    OfConcat(d, q, [r]);
    OfOne(d, r);
    assert Of(d, q) + [] == Of(d, q);
  }

  lemma QueuedOwn(cfg: Config, s: State, c: ConnId, r: Request)
    requires c in s.conns && c in cfg.sent && ConnOk(cfg, s, c) && s.conns[c].frames != [] && r.conn == c
    requires var x := s.conns[c];
             Account(cfg.kind, c, cfg.sent[c], x.(frames := x.frames[1..]), Arrived(s, c, x.worker) + [r])
    ensures ConnOk(cfg, Queued(s, c, r), c)
  {
    hide Account, Of;
    var x := s.conns[c];
    OfConcat(c, s.queues[x.worker], [r]);
    OfOne(c, r);
    assert Arrived(s, c, x.worker) + [r] == Of(c, s.taken) + (Of(c, s.queues[x.worker]) + [r]);
  }

  lemma TakenByOk(cfg: Config, s: State, w: nat)
    requires Ok(cfg, s) && w < |s.queues| && s.queues[w] != []
    ensures Ok(cfg, TakenBy(s, w))
  {
    hide Account, Of;
    var t := TakenBy(s, w);
    forall d | d in t.conns
      ensures ConnOk(cfg, t, d)
    {
      assert ConnOk(cfg, s, d);
      TakenMoves(d, s.taken, s.queues[w]);
      if s.queues[w][0].conn == d {
        assert s.conns[d].worker == w;
        assert Arrived(t, d, w) == Arrived(s, d, w);
      } else {
        Unmoved(cfg, s, t, d);
      }
    }
  }

  /** Taking the head of a queue moves it, if it is `c`'s, from the queue's part to the taken part. */
  lemma TakenMoves(c: ConnId, taken: seq<Request>, q: seq<Request>)
    requires q != []
    ensures q[0].conn != c ==> Of(c, q[1..]) == Of(c, q) && Of(c, taken + [q[0]]) == Of(c, taken)
    ensures q[0].conn == c ==> Of(c, q) != []
    ensures Of(c, taken + [q[0]]) + Of(c, q[1..]) == Of(c, taken) + Of(c, q)
  {
    assert q == [q[0]] + q[1..];
    OfConcat(c, [q[0]], q[1..]);
    OfConcat(c, taken, [q[0]]);
    OfOne(c, q[0]);
  }

  lemma ReleasedOk(cfg: Config, s: State, c: ConnId)
    requires Ok(cfg, s) && c in s.conns
    ensures Ok(cfg, Released(cfg, s, c))
  {
    hide Of, Frames, Leftover, HoldsFrame, Layout, Sent, PackedEach, Concat;
    var t := Released(cfg, s, c);
    assert ConnOk(cfg, s, c);
    forall d | d in t.conns
      ensures ConnOk(cfg, t, d)
    {
      assert ConnOk(cfg, s, d);
    }
  }

  /** In either mode an id handed out is an index of the task queues. */
  lemma IdInRange(cfg: Config, s: State, c: ConnId, w: nat)
    requires 0 < cfg.poolSize && s.free <= Below(cfg.poolSize) && MayGet(cfg, s, c, w)
    ensures w < cfg.poolSize
  {
    if cfg.bind && s.free != {} {
      assert w in Below(cfg.poolSize);
    }
  }

  /** Every step keeps the invariant. */
  lemma StepOk(cfg: Config, s: State, step: Step)
    requires 0 < cfg.poolSize && Sendable(cfg) && Ok(cfg, s) && Enabled(cfg, s, step)
    ensures Ok(cfg, Apply(cfg, s, step))
  {
    hide Account, Of, AfterRead, ToRequest, Queued, TakenBy, Released, Started, WithConn;
    if !step.Take? {
      assert ConnOk(cfg, s, step.c);
    }
    match step
    case Start(c, w) =>
      IdInRange(cfg, s, c, w);
      StartOk(cfg, s, c, w);
    case Read(c, n) =>
      var x := s.conns[c];
      ReadAccount(cfg.kind, c, cfg.sent[c], x, n, Arrived(s, c, x.worker));
      WithConnOk(cfg, s, c, AfterRead(cfg.kind, x, n));
    case Dispatch(c) =>
      var x := s.conns[c];
      DispatchAccount(cfg.kind, c, cfg.sent[c], x, Arrived(s, c, x.worker));
      var r := ToRequest(cfg.kind, c, x.frames[0]);
      if r.Some? {
        QueuedOk(cfg, s, c, r.value);
      } else {
        ExitAccount(cfg.kind, c, cfg.sent[c], x, Arrived(s, c, x.worker));
        WithConnOk(cfg, s, c, x.(reader := Exited));
      }
    case Take(w) =>
      TakenByOk(cfg, s, w);
    case Exit(c) =>
      var x := s.conns[c];
      ExitAccount(cfg.kind, c, cfg.sent[c], x, Arrived(s, c, x.worker));
      WithConnOk(cfg, s, c, x.(reader := Exited));
    case Release(c) =>
      ReleasedOk(cfg, s, c);
  }

  lemma ExitAccount(k: Kind, c: ConnId, ms: seq<Msg>, x: Conn, arrived: seq<Request>)
    requires Account(k, c, ms, x, arrived)
    ensures Account(k, c, ms, x.(reader := Exited), arrived)
  {
  }

  // ----- whole runs

  /** Each step can be taken when its turn comes. */
  predicate Possible(cfg: Config, s: State, steps: seq<Step>)
    requires 0 < cfg.poolSize
    decreases |steps|
  {
    steps == [] || (Enabled(cfg, s, steps[0]) && Possible(cfg, Apply(cfg, s, steps[0]), steps[1..]))
  }

  function After(cfg: Config, s: State, steps: seq<Step>): State
    requires 0 < cfg.poolSize && Possible(cfg, s, steps)
    decreases |steps|
  {
    if steps == [] then s else After(cfg, Apply(cfg, s, steps[0]), steps[1..])
  }

  lemma {:induction false} RunOk(cfg: Config, s: State, steps: seq<Step>)
    requires 0 < cfg.poolSize && Sendable(cfg) && Ok(cfg, s) && Possible(cfg, s, steps)
    ensures Ok(cfg, After(cfg, s, steps))
    decreases |steps|
  {
    hide Ok, Enabled, Apply;
    if steps == [] {
    } else {
      StepOk(cfg, s, steps[0]);
      RunOk(cfg, Apply(cfg, s, steps[0]), steps[1..]);
    }
  }

  /** Requests that belong to connections of the run. */
  predicate Known(cfg: Config, rs: seq<Request>)
  {
    forall r <- rs :: r.conn in cfg.sent
  }

  predicate AllKnown(cfg: Config, s: State)
  {
    s.conns.Keys == cfg.sent.Keys && Known(cfg, s.taken) && forall q <- s.queues :: Known(cfg, q)
  }

  lemma InitKnown(cfg: Config)
    ensures AllKnown(cfg, Init(cfg))
  {
    forall q | q in Init(cfg).queues
      ensures Known(cfg, q)
    {
      assert q == [];
    }
  }

  lemma StepKnown(cfg: Config, s: State, step: Step)
    requires 0 < cfg.poolSize && AllKnown(cfg, s) && Enabled(cfg, s, step)
    ensures AllKnown(cfg, Apply(cfg, s, step))
  {
    hide DecodePacket, FD.Drain;
    match step
    case Dispatch(c) =>
      var x := s.conns[c];
      var r := ToRequest(cfg.kind, c, x.frames[0]);
      if r.Some? {
        assert s.queues[x.worker] in s.queues && r.value.conn == c && c in s.conns.Keys;
        assert Known(cfg, s.queues[x.worker] + [r.value]);
      }
    case Take(w) =>
      assert Known(cfg, s.queues[w]);
      assert Known(cfg, s.queues[w][1..]);
    case _ =>
  }

  lemma {:induction false} RunKnown(cfg: Config, s: State, steps: seq<Step>)
    requires 0 < cfg.poolSize && AllKnown(cfg, s) && Possible(cfg, s, steps)
    ensures AllKnown(cfg, After(cfg, s, steps))
    decreases |steps|
  {
    hide AllKnown, Enabled, Apply;
    if steps == [] {
    } else {
      StepKnown(cfg, s, steps[0]);
      RunKnown(cfg, Apply(cfg, s, steps[0]), steps[1..]);
    }
  }

  /**
   On every run, for every connection, what the workers have taken is a beginning of the list of
   messages its peer packed: in order, none lost, repeated, altered or mixed with another's.
   */
  lemma TakenIsPrefixOfSent(cfg: Config, steps: seq<Step>, c: ConnId)
    requires 0 < cfg.poolSize && Sendable(cfg) && c in cfg.sent && Possible(cfg, Init(cfg), steps)
    ensures Of(c, After(cfg, Init(cfg), steps).taken) <= Sent(c, cfg.sent[c])
    ensures Known(cfg, After(cfg, Init(cfg), steps).taken)
  {
    hide Enabled, Apply, Init, Ok, Of;
    InitKnown(cfg);
    RunKnown(cfg, Init(cfg), steps);
    InitOk(cfg);
    RunOk(cfg, Init(cfg), steps);
    ArrivedIsPrefix(cfg, After(cfg, Init(cfg), steps), c);
  }

  lemma ArrivedIsPrefix(cfg: Config, s: State, c: ConnId)
    requires c in cfg.sent && Ok(cfg, s)
    ensures c in s.conns && s.conns[c].worker < |s.queues|
    ensures Arrived(s, c, s.conns[c].worker) <= Sent(c, cfg.sent[c])
    ensures Of(c, s.taken) <= Sent(c, cfg.sent[c])
  {
    hide Of, Layout, HoldsFrame, Frames, Leftover, PackedEach, Concat, Sent;
    assert ConnOk(cfg, s, c);
    SentPrefix(c, cfg.sent[c], |Arrived(s, c, s.conns[c].worker)|);
  }

  lemma SentPrefix(c: ConnId, ms: seq<Msg>, n: nat)
    requires n <= |ms|
    ensures Sent(c, ms[..n]) == Sent(c, ms)[..n]
  {
  }

  /** Nothing of a running reader's connection is unread, undecoded, undispatched or still queued. */
  predicate Drained(s: State, c: ConnId)
    requires c in s.conns && s.conns[c].worker < |s.queues|
  {
    var x := s.conns[c];
    x.reader == Reading && x.unread == [] && x.frames == [] && Of(c, s.queues[x.worker]) == []
  }

  /** Then every message has been taken: nothing is lost on the way. */
  lemma AllTakenWhenDrained(cfg: Config, s: State, c: ConnId)
    requires c in cfg.sent && Ok(cfg, s)
    ensures c in s.conns && s.conns[c].worker < |s.queues|
    ensures Drained(s, c) ==> Of(c, s.taken) == Sent(c, cfg.sent[c])
  {
    hide Of, Layout, Frames, Leftover, HoldsFrame, Concat;
    assert ConnOk(cfg, s, c);
    if Drained(s, c) {
      var x, ms := s.conns[c], cfg.sent[c];
      var n := |Arrived(s, c, x.worker)|;
      NoMoreFrames(cfg.kind, x);
      assert |PackedEach(cfg.kind, ms[n..])| == 0;
      assert ms[..n] == ms;
    }
  }

  lemma NoMoreFrames(k: Kind, x: Conn)
    requires x.unread == [] && !HoldsFrame(Layout(k), x.buffered)
    ensures Frames(Layout(k), x.buffered + x.unread) == []
  {
    hide Layout, HoldsFrame;
    assert x.buffered + x.unread == x.buffered;
  }

  /** The same over whole runs. */
  lemma RunDeliversAll(cfg: Config, steps: seq<Step>, c: ConnId)
    requires 0 < cfg.poolSize && Sendable(cfg) && c in cfg.sent && Possible(cfg, Init(cfg), steps)
    ensures var s := After(cfg, Init(cfg), steps);
            && c in s.conns && s.conns[c].worker < |s.queues|
            && (Drained(s, c) ==> Of(c, s.taken) == Sent(c, cfg.sent[c]))
  {
    hide Enabled, Apply, Init, Ok, Of, Drained;
    InitOk(cfg);
    RunOk(cfg, Init(cfg), steps);
    AllTakenWhenDrained(cfg, After(cfg, Init(cfg), steps), c);
  }

  lemma NoneQueued(c: ConnId)
    ensures Of(c, []) == []
  {
  }

  /**
   No deadlock: while a running reader's connection has a message not taken, one of these can
   happen: its worker takes a request, its reader queues a frame, or its reader reads on.
   */
  lemma SomethingMoves(cfg: Config, s: State, c: ConnId)
    requires 0 < cfg.poolSize && 0 < cfg.capacity && Ok(cfg, s) && c in s.conns
    requires s.conns[c].reader == Reading && Of(c, s.taken) != Sent(c, cfg.sent[c])
    ensures || Enabled(cfg, s, Take(s.conns[c].worker))
            || Enabled(cfg, s, Dispatch(c))
            || (s.conns[c].unread != [] && Enabled(cfg, s, Read(c, |s.conns[c].unread|)))
  {
    hide Account, ToRequest, Sent, Of;
    assert ConnOk(cfg, s, c);
    AllTakenWhenDrained(cfg, s, c);
    NoneQueued(c);
  }

  // ----- the queues' room

  /** One queue a worker, none longer than the room it was made with. */
  predicate Bounded(cfg: Config, s: State)
  {
    |s.queues| == cfg.poolSize && forall q <- s.queues :: |q| <= cfg.capacity
  }

  lemma StepBounded(cfg: Config, s: State, step: Step)
    requires 0 < cfg.poolSize && Bounded(cfg, s) && Enabled(cfg, s, step)
    ensures Bounded(cfg, Apply(cfg, s, step))
  {
    hide ToRequest, FD.Drain;
    match step
    case Take(w) => assert s.queues[w] in s.queues;
    case _ =>
  }

  lemma {:induction false} StaysBounded(cfg: Config, s: State, steps: seq<Step>)
    requires 0 < cfg.poolSize && Bounded(cfg, s) && Possible(cfg, s, steps)
    ensures Bounded(cfg, After(cfg, s, steps))
    decreases |steps|
  {
    hide Bounded, Enabled, Apply;
    if steps == [] {
    } else {
      StepBounded(cfg, s, steps[0]);
      StaysBounded(cfg, Apply(cfg, s, steps[0]), steps[1..]);
    }
  }

  /** On every run, in either mode, no queue ever holds more requests than it has room for. */
  lemma QueuesBounded(cfg: Config, steps: seq<Step>)
    requires 0 < cfg.poolSize && Possible(cfg, Init(cfg), steps)
    ensures var s := After(cfg, Init(cfg), steps);
            |s.queues| == cfg.poolSize && forall q <- s.queues :: |q| <= cfg.capacity
  {
    StaysBounded(cfg, Init(cfg), steps);
  }

  /**
   Nobody waits for more than it has to, whatever all the others do: a connection starts with any id
   it may get; a reader with nothing at hand reads any part of what came, however full the queues
   are; it queues the next request exactly when its worker's queue has room, and a frame that does not
   decode needs none; a worker takes from its queue; a connection exits and gives its id back at will.
   */
  lemma NobodyWaitsInVain(cfg: Config, s: State, c: ConnId)
    requires 0 < cfg.poolSize && c in s.conns
    ensures s.conns[c].reader == Waiting ==> forall w: nat :: MayGet(cfg, s, c, w) ==> Enabled(cfg, s, Start(c, w))
    ensures s.conns[c].reader == Reading ==> Enabled(cfg, s, Exit(c))
    ensures s.conns[c].reader == Reading && s.conns[c].frames == [] ==>
              forall n: nat :: n <= |s.conns[c].unread| ==> Enabled(cfg, s, Read(c, n))
    ensures s.conns[c].reader == Reading && s.conns[c].frames != [] && s.conns[c].worker < |s.queues| ==>
              (Enabled(cfg, s, Dispatch(c))
          <==> ToRequest(cfg.kind, c, s.conns[c].frames[0]) == None
               || |s.queues[s.conns[c].worker]| + 1 <= cfg.capacity)
    ensures forall w: nat :: w < |s.queues| && 0 < |s.queues[w]| ==> Enabled(cfg, s, Take(w))
    ensures s.conns[c].holding ==> Enabled(cfg, s, Release(c))
  {
    hide ToRequest, MayGet;
  }

  // ----- the life of a connection

  function Starts(steps: seq<Step>, c: ConnId): nat
  {
    if steps == [] then 0 else (if steps[0].Start? && steps[0].c == c then 1 else 0) + Starts(steps[1..], c)
  }

  function Exits(steps: seq<Step>, c: ConnId): nat
  {
    if steps == [] then 0 else (if steps[0] == Exit(c) then 1 else 0) + Exits(steps[1..], c)
  }

  function Releases(steps: seq<Step>, c: ConnId): nat
  {
    if steps == [] then 0 else (if steps[0] == Release(c) then 1 else 0) + Releases(steps[1..], c)
  }

  function Holds(x: Conn): nat
  {
    if x.holding then 1 else 0
  }

  /** What one step, or many, may do to a connection's life. */
  predicate LivedOn(x: Conn, y: Conn, starts: nat, exits: nat, releases: nat)
  {
    && starts == (if x.reader == Waiting && y.reader != Waiting then 1 else 0)
    && (x.reader != Waiting ==> y.reader != Waiting)
    && (x.reader == Exited ==> y.reader == Exited && exits == 0)
    && (0 < exits ==> y.reader == Exited)
    && releases + Holds(y) == starts + Holds(x)
    && (y.reader == Waiting ==> !y.holding)
  }

  lemma LifeStep(cfg: Config, s: State, step: Step, c: ConnId)
    requires 0 < cfg.poolSize && Enabled(cfg, s, step) && c in s.conns
    requires s.conns[c].reader == Waiting ==> !s.conns[c].holding
    ensures c in Apply(cfg, s, step).conns
    ensures LivedOn(s.conns[c], Apply(cfg, s, step).conns[c], if step.Start? && step.c == c then 1 else 0,
                    if step == Exit(c) then 1 else 0, if step == Release(c) then 1 else 0)
  {
    hide ToRequest, FD.Drain;
  }

  lemma {:induction false} LifeOver(cfg: Config, s: State, steps: seq<Step>, c: ConnId)
    requires 0 < cfg.poolSize && Possible(cfg, s, steps) && c in s.conns
    requires s.conns[c].reader == Waiting ==> !s.conns[c].holding
    ensures c in After(cfg, s, steps).conns
    ensures LivedOn(s.conns[c], After(cfg, s, steps).conns[c], Starts(steps, c), Exits(steps, c), Releases(steps, c))
    decreases |steps|
  {
    hide Enabled, Apply;
    if steps == [] {
    } else {
      LifeStep(cfg, s, steps[0], c);
      LifeOver(cfg, Apply(cfg, s, steps[0]), steps[1..], c);
    }
  }

  /**
   On every run a connection starts once at most; it reads, queues requests and exits only once
   started and never after its exit; and it gives its worker id back once at most, after its start.
   */
  lemma LifeOfConnection(cfg: Config, steps: seq<Step>, next: Step)
    requires 0 < cfg.poolSize && Possible(cfg, Init(cfg), steps) && Enabled(cfg, After(cfg, Init(cfg), steps), next)
    ensures next.Start? ==> Starts(steps, next.c) == 0
    ensures next.Read? || next.Dispatch? || next.Exit? ==> Starts(steps, next.c) == 1 && Exits(steps, next.c) == 0
    ensures next.Release? ==> Starts(steps, next.c) == 1 && Releases(steps, next.c) == 0
  {
    hide Possible, After, Starts, Exits, Releases;
    if !next.Take? {
      SameConns(cfg, Init(cfg), steps);
      LifeOver(cfg, Init(cfg), steps, next.c);
    }
  }

  lemma {:induction false} SameConns(cfg: Config, s: State, steps: seq<Step>)
    requires 0 < cfg.poolSize && Possible(cfg, s, steps)
    ensures After(cfg, s, steps).conns.Keys == s.conns.Keys
    decreases |steps|
  {
    hide ToRequest, FD.Drain;
    if steps == [] {
    } else {
      SameConns(cfg, Apply(cfg, s, steps[0]), steps[1..]);
    }
  }

  // ----- every split of the bytes is a run

  lemma {:induction false} RunsJoin(cfg: Config, s: State, a: seq<Step>, b: seq<Step>)
    requires 0 < cfg.poolSize && Possible(cfg, s, a) && Possible(cfg, After(cfg, s, a), b)
    ensures Possible(cfg, s, a + b) && After(cfg, s, a + b) == After(cfg, After(cfg, s, a), b)
    decreases |a|
  {
    hide Enabled, Apply;
    if a == [] {
      assert a + b == b;
    } else {
      assert (a + b)[1..] == a[1..] + b;
      RunsJoin(cfg, Apply(cfg, s, a[0]), a[1..], b);
    }
  }

  /** How many bytes a connection's reads brought, read by read. */
  function ReadSizes(steps: seq<Step>, c: ConnId): seq<nat>
  {
    if steps == [] then []
    else (if steps[0].Read? && steps[0].c == c then [steps[0].n] else []) + ReadSizes(steps[1..], c)
  }

  lemma {:induction false} ReadSizesJoin(a: seq<Step>, b: seq<Step>, c: ConnId)
    ensures ReadSizes(a + b, c) == ReadSizes(a, c) + ReadSizes(b, c)
    decreases |a|
  {
    if a == [] {
      assert a + b == b;
    } else {
      assert (a + b)[1..] == a[1..] + b;
      ReadSizesJoin(a[1..], b, c);
      var head := if a[0].Read? && a[0].c == c then [a[0].n] else [];
      assert head + (ReadSizes(a[1..], c) + ReadSizes(b, c)) == head + ReadSizes(a[1..], c) + ReadSizes(b, c);
    }
  }

  /** Messages short enough to be decoded, and room for at least one request a queue. */
  predicate Deliverable(cfg: Config, c: ConnId)
  {
    && 0 < cfg.poolSize && 0 < cfg.capacity && Sendable(cfg) && c in cfg.sent
    && forall m <- cfg.sent[c] :: |m.data| <= TWO_32 - 9
  }

  /** A running connection whose worker has nothing queued. */
  predicate Clear(s: State, c: ConnId)
  {
    && c in s.conns && s.conns[c].reader == Reading
    && s.conns[c].worker < |s.queues| && s.queues[s.conns[c].worker] == []
  }

  /** The next frame can be queued and its request taken, which leaves the queues as they were. */
  lemma DispatchOne(cfg: Config, s: State, c: ConnId) returns (steps: seq<Step>)
    requires Deliverable(cfg, c) && Ok(cfg, s) && Clear(s, c) && s.conns[c].frames != []
    ensures Possible(cfg, s, steps) && ReadSizes(steps, c) == []
    ensures var t := After(cfg, s, steps);
            && t.free == s.free && t.queues == s.queues
            && t.conns == s.conns[c := s.conns[c].(frames := s.conns[c].frames[1..])]
  {
    hide Account, ToRequest, Of, Sent, Arrived;
    var x := s.conns[c];
    var w := x.worker;
    assert ConnOk(cfg, s, c);
    var arrived := Arrived(s, c, w);
    DispatchAccount(cfg.kind, c, cfg.sent[c], x, arrived);
    assert cfg.sent[c][|arrived|] in cfg.sent[c];
    var r := ToRequest(cfg.kind, c, x.frames[0]);
    assert r.Some?;
    var t := Apply(cfg, s, Dispatch(c));
    assert [] + [r.value] == [r.value];
    assert t == Queued(s, c, r.value) && t.queues[w] == [r.value];
    assert [r.value][1..] == [];
    var u := Apply(cfg, t, Take(w));
    assert u.queues == s.queues;
    steps := [Dispatch(c), Take(w)];
    TwoSteps(cfg, s, Dispatch(c), Take(w));
    NoReads(Dispatch(c), Take(w), c);
  }

  lemma NoReads(first: Step, second: Step, c: ConnId)
    requires !first.Read? && !second.Read?
    ensures ReadSizes([first, second], c) == []
  {
    assert [first, second][1..] == [second] && [second][1..] == [];
    assert ReadSizes([second], c) == [];
  }

  lemma OneStep(cfg: Config, s: State, step: Step)
    requires 0 < cfg.poolSize && Enabled(cfg, s, step)
    ensures Possible(cfg, s, [step]) && After(cfg, s, [step]) == Apply(cfg, s, step)
  {
    hide Enabled, Apply;
    assert [step][1..] == [];
  }

  lemma TwoSteps(cfg: Config, s: State, first: Step, second: Step)
    requires 0 < cfg.poolSize && Enabled(cfg, s, first) && Enabled(cfg, Apply(cfg, s, first), second)
    ensures Possible(cfg, s, [first, second])
    ensures After(cfg, s, [first, second]) == Apply(cfg, Apply(cfg, s, first), second)
  {
    hide Enabled, Apply;
    OneStep(cfg, Apply(cfg, s, first), second);
    assert [first, second][1..] == [second];
  }

  lemma {:induction false} DispatchAll(cfg: Config, s: State, c: ConnId) returns (steps: seq<Step>)
    requires Deliverable(cfg, c) && Ok(cfg, s) && Clear(s, c)
    ensures Possible(cfg, s, steps) && ReadSizes(steps, c) == []
    ensures var t := After(cfg, s, steps);
            && t.free == s.free && t.queues == s.queues && t.conns == s.conns[c := s.conns[c].(frames := [])]
    decreases |s.conns[c].frames|
  {
    hide Ok, Enabled, Apply;
    if s.conns[c].frames == [] {
      steps := [];
    } else {
      var now := DispatchOne(cfg, s, c);
      RunOk(cfg, s, now);
      var later := DispatchAll(cfg, After(cfg, s, now), c);
      RunsJoin(cfg, s, now, later);
      ReadSizesJoin(now, later, c);
      steps := now + later;
    }
  }

  function Sum(sizes: seq<nat>): nat
  {
    if sizes == [] then 0 else sizes[0] + Sum(sizes[1..])
  }

  lemma ReadStep(cfg: Config, s: State, c: ConnId, n: nat)
    requires Deliverable(cfg, c) && Ok(cfg, s) && Clear(s, c) && s.conns[c].frames == []
    requires n <= |s.conns[c].unread|
    ensures Enabled(cfg, s, Read(c, n))
    ensures var t := Apply(cfg, s, Read(c, n));
            && Ok(cfg, t) && Clear(t, c) && t.free == s.free
            && t.conns[c].unread == s.conns[c].unread[n..]
            && t.conns[c].worker == s.conns[c].worker && t.conns[c].holding == s.conns[c].holding
  {
    var x := s.conns[c];
    assert ConnOk(cfg, s, c);
    hide Account, Arrived, Of;
    ReadAccount(cfg.kind, c, cfg.sent[c], x, n, Arrived(s, c, x.worker));
    hide ConnOk, FD.Drain;
    StepOk(cfg, s, Read(c, n));
    hide Ok;
  }

  /** One read of any size, with everything it completes queued and taken. */
  lemma ReadOne(cfg: Config, s: State, c: ConnId, n: nat) returns (steps: seq<Step>)
    requires Deliverable(cfg, c) && Ok(cfg, s) && Clear(s, c) && s.conns[c].frames == []
    requires n <= |s.conns[c].unread|
    ensures Possible(cfg, s, steps) && ReadSizes(steps, c) == [n]
    ensures var t := After(cfg, s, steps);
            && Ok(cfg, t) && Clear(t, c) && t.free == s.free && t.conns[c].frames == []
            && t.conns[c].unread == s.conns[c].unread[n..]
            && t.conns[c].worker == s.conns[c].worker && t.conns[c].holding == s.conns[c].holding
  {
    hide Ok, Enabled, Apply, Possible, After;
    ReadStep(cfg, s, c, n);
    OneStep(cfg, s, Read(c, n));
    var later := DispatchAll(cfg, Apply(cfg, s, Read(c, n)), c);
    RunsJoin(cfg, s, [Read(c, n)], later);
    ReadSizesJoin([Read(c, n)], later, c);
    steps := [Read(c, n)] + later;
    RunOk(cfg, s, steps);
    assert [Read(c, n)][1..] == [];
  }

  lemma {:induction false} ReadAll(cfg: Config, s: State, c: ConnId, sizes: seq<nat>) returns (steps: seq<Step>)
    requires Deliverable(cfg, c) && Ok(cfg, s) && Clear(s, c) && s.conns[c].frames == []
    requires Sum(sizes) == |s.conns[c].unread|
    ensures Possible(cfg, s, steps) && ReadSizes(steps, c) == sizes
    ensures var t := After(cfg, s, steps);
            && Ok(cfg, t) && Clear(t, c) && t.free == s.free && t.conns[c].frames == [] && t.conns[c].unread == []
            && t.conns[c].worker == s.conns[c].worker && t.conns[c].holding == s.conns[c].holding
    decreases |sizes|
  {
    hide Ok, Enabled, Apply;
    if sizes == [] {
      steps := [];
    } else {
      var now := ReadOne(cfg, s, c, sizes[0]);
      var later := ReadAll(cfg, After(cfg, s, now), c, sizes[1..]);
      RunsJoin(cfg, s, now, later);
      ReadSizesJoin(now, later, c);
      steps := now + later;
    }
  }

  predicate HoldsAndReads(s: State, c: ConnId)
  {
    c in s.conns && s.conns[c].reader == Reading && s.conns[c].holding
  }

  /** A running connection may exit at any moment and give its worker id back, in either order. */
  lemma EitherOrder(cfg: Config, s: State, c: ConnId)
    requires 0 < cfg.poolSize && HoldsAndReads(s, c)
    ensures Possible(cfg, s, [Exit(c), Release(c)]) && Possible(cfg, s, [Release(c), Exit(c)])
    ensures After(cfg, s, [Exit(c), Release(c)]) == After(cfg, s, [Release(c), Exit(c)])
  {
    TwoSteps(cfg, s, Exit(c), Release(c));
    TwoSteps(cfg, s, Release(c), Exit(c));
    hide Possible, After;
    assert Apply(cfg, Apply(cfg, s, Exit(c)), Release(c)).conns == Apply(cfg, Apply(cfg, s, Release(c)), Exit(c)).conns;
  }

  /** It may do so behind any run. */
  lemma LeavesAfter(cfg: Config, s: State, steps: seq<Step>, c: ConnId)
    requires 0 < cfg.poolSize && Possible(cfg, s, steps)
    requires HoldsAndReads(After(cfg, s, steps), c)
    ensures var t := After(cfg, s, steps);
            var u := Released(cfg, WithConn(t, c, t.conns[c].(reader := Exited)), c);
            && Possible(cfg, s, steps + [Exit(c), Release(c)])
            && After(cfg, s, steps + [Exit(c), Release(c)]) == u
            && ReadSizes(steps + [Exit(c), Release(c)], c) == ReadSizes(steps, c)
  {
    hide After, Possible;
    var t := After(cfg, s, steps);
    TwoSteps(cfg, t, Exit(c), Release(c));
    RunsJoin(cfg, s, steps, [Exit(c), Release(c)]);
    ReadSizesJoin(steps, [Exit(c), Release(c)], c);
    NoReads(Exit(c), Release(c), c);
    assert ReadSizes(steps, c) + [] == ReadSizes(steps, c);
  }

  lemma StartStep(cfg: Config, c: ConnId, w: nat)
    requires Deliverable(cfg, c) && MayGet(cfg, Init(cfg), c, w)
    ensures Enabled(cfg, Init(cfg), Start(c, w))
    ensures var t := Apply(cfg, Init(cfg), Start(c, w));
            && Ok(cfg, t) && Clear(t, c) && HoldsAndReads(t, c)
            && t.conns[c].frames == [] && t.conns[c].unread == Concat(PackedEach(cfg.kind, cfg.sent[c]))
            && t.conns[c].worker == w
            && t.free == (if cfg.bind then Init(cfg).free - {w} else Init(cfg).free)
            && (cfg.bind ==> w in Init(cfg).free)
  {
    hide Concat, PackedEach, ConnOk;
    InitOk(cfg);
    assert cfg.bind ==> 0 in Init(cfg).free;
    IdInRange(cfg, Init(cfg), c, w);
    StepOk(cfg, Init(cfg), Start(c, w));
  }

  /**
   However a connection's bytes are split into reads, with whatever worker it may get, there is a run
   that reads them in just these pieces and has everything taken; then the connection exits and gives
   its worker id back, and the free set is what it was.
   */
  lemma AnySplitRuns(cfg: Config, c: ConnId, w: nat, sizes: seq<nat>) returns (steps: seq<Step>)
    requires Deliverable(cfg, c) && MayGet(cfg, Init(cfg), c, w)
    requires Sum(sizes) == |Concat(PackedEach(cfg.kind, cfg.sent[c]))|
    ensures Possible(cfg, Init(cfg), steps) && ReadSizes(steps, c) == sizes
    ensures var t := After(cfg, Init(cfg), steps);
            && Of(c, t.taken) == Sent(c, cfg.sent[c])
            && t.free == Init(cfg).free
            && c in t.conns && t.conns[c].reader == Exited && !t.conns[c].holding && t.conns[c].worker == w
  {
    hide Of, Ok, Concat, PackedEach, Enabled, Apply, Possible, After, Init;
    var s := Init(cfg);
    StartStep(cfg, c, w);
    OneStep(cfg, s, Start(c, w));
    var t := Apply(cfg, s, Start(c, w));
    var body := ReadAll(cfg, t, c, sizes);
    RunsJoin(cfg, s, [Start(c, w)], body);
    ReadSizesJoin([Start(c, w)], body, c);
    assert ReadSizes([Start(c, w)], c) == [] by {
      assert [Start(c, w)][1..] == [];
    }
    assert [] + sizes == sizes;
    var u := After(cfg, t, body);
    steps := [Start(c, w)] + body + [Exit(c), Release(c)];
    LeavesAfter(cfg, s, [Start(c, w)] + body, c);
    NoneQueued(c);
    AllTakenWhenDrained(cfg, u, c);
  }

  // ----- every run comes to rest

  /** What is left to do for a connection: reading a byte, cutting it into a frame, queueing that. */
  function ConnWork(x: Conn): nat
  {
    4 * |x.unread| + 3 * |x.buffered| + 2 * |x.frames|
    + (match x.reader case Waiting => 3 case Reading => 1 case Exited => 0)
    + if x.holding then 1 else 0
  }

  /** The work of the connections numbered below `n`. */
  function ConnsWork(conns: map<ConnId, Conn>, n: nat): nat
  {
    if n == 0 then 0 else ConnsWork(conns, n - 1) + if n - 1 in conns then ConnWork(conns[n - 1]) else 0
  }

  function QueuesWork(queues: seq<seq<Request>>): nat
  {
    if queues == [] then 0 else |queues[0]| + QueuesWork(queues[1..])
  }

  /** All that is left to do, with every connection numbered below `n`. */
  function WorkLeft(s: State, n: nat): nat
  {
    ConnsWork(s.conns, n) + QueuesWork(s.queues)
  }

  lemma {:induction false} ConnsWorkUpdate(conns: map<ConnId, Conn>, n: nat, c: ConnId, x: Conn)
    requires c in conns
    ensures ConnsWork(conns[c := x], n) == ConnsWork(conns, n) + if c < n then ConnWork(x) - ConnWork(conns[c]) else 0
  {
    hide ConnWork;
    if n == 0 {
    } else {
      ConnsWorkUpdate(conns, n - 1, c, x);
    }
  }

  lemma {:induction false} QueuesWorkUpdate(queues: seq<seq<Request>>, w: nat, q: seq<Request>)
    requires w < |queues|
    ensures QueuesWork(queues[w := q]) == QueuesWork(queues) - |queues[w]| + |q|
  {
    if w == 0 {
      assert queues[w := q][1..] == queues[1..];
    } else {
      QueuesWorkUpdate(queues[1..], w - 1, q);
      assert queues[w := q][1..] == queues[1..][w - 1 := q];
    }
  }

  /** Reading bytes lowers the work, however many frames they complete; reading none changes nothing. */
  lemma ReadWork(k: Kind, c: ConnId, ms: seq<Msg>, x: Conn, n: nat, arrived: seq<Request>)
    requires x.reader == Reading && x.frames == [] && n <= |x.unread| && Account(k, c, ms, x, arrived)
    ensures 0 < n ==> ConnWork(AfterRead(k, x, n)) < ConnWork(x)
    ensures n == 0 ==> AfterRead(k, x, n) == x
  {
    hide Frames, Leftover, HoldsFrame, PackedEach, WithinLimits, FD.Drain, Sent, Framing.Splittable;
    var now := x.buffered + x.unread[..n];
    PresetAlwaysWithinLimits(k, now);
    FD.LoopCutsFrames(Layout(k), now);
    FramesBounded(Layout(k), now, 1);
    if n == 0 {
      assert now == x.buffered && x.unread[0..] == x.unread;
      NothingToCut(k, x.buffered);
    }
  }

  lemma NothingToCut(k: Kind, buffered: seq<byte>)
    requires !HoldsFrame(Layout(k), buffered)
    ensures Frames(Layout(k), buffered) == [] && Leftover(Layout(k), buffered) == buffered
  {
    hide Layout, HoldsFrame;
  }

  /** A read that brings nothing. */
  predicate EmptyRead(step: Step)
  {
    step.Read? && step.n == 0
  }

  /** Every step but an empty read lowers the work left, and an empty read changes nothing. */
  lemma WorkShrinks(cfg: Config, s: State, step: Step, n: nat)
    requires 0 < cfg.poolSize && Ok(cfg, s) && Enabled(cfg, s, step) && forall c <- s.conns :: c < n
    ensures var t := Apply(cfg, s, step);
            if EmptyRead(step) then t == s else WorkLeft(t, n) < WorkLeft(s, n)
  {
    hide Account, Of, AfterRead, ToRequest, Arrived, ConnsWork, QueuesWork, Sent;
    match step
    case Start(c, w) =>
      ConnsWorkUpdate(s.conns, n, c, s.conns[c].(reader := Reading, worker := w, holding := true));
    case Read(c, k) =>
      var x := s.conns[c];
      assert ConnOk(cfg, s, c);
      ReadWork(cfg.kind, c, cfg.sent[c], x, k, Arrived(s, c, x.worker));
      ConnsWorkUpdate(s.conns, n, c, AfterRead(cfg.kind, x, k));
    case Dispatch(c) =>
      DispatchWork(cfg, s, c, n);
    case Take(w) =>
      QueuesWorkUpdate(s.queues, w, s.queues[w][1..]);
    case Exit(c) =>
      ConnsWorkUpdate(s.conns, n, c, s.conns[c].(reader := Exited));
    case Release(c) =>
      ConnsWorkUpdate(s.conns, n, c, s.conns[c].(holding := false));
  }

  lemma DispatchWork(cfg: Config, s: State, c: ConnId, n: nat)
    requires 0 < cfg.poolSize && Enabled(cfg, s, Dispatch(c)) && c < n
    ensures WorkLeft(Apply(cfg, s, Dispatch(c)), n) < WorkLeft(s, n)
  {
    hide ToRequest, ConnsWork, QueuesWork;
    var x := s.conns[c];
    match ToRequest(cfg.kind, c, x.frames[0])
    case None =>
      ConnsWorkUpdate(s.conns, n, c, x.(reader := Exited));
    case Some(r) =>
      ConnsWorkUpdate(s.conns, n, c, x.(frames := x.frames[1..]));
      QueuesWorkUpdate(s.queues, x.worker, s.queues[x.worker] + [r]);
  }

  /** The steps of a run that are no empty reads. */
  function Moves(steps: seq<Step>): nat
  {
    if steps == [] then 0 else (if EmptyRead(steps[0]) then 0 else 1) + Moves(steps[1..])
  }

  lemma {:induction false} MovesBounded(cfg: Config, s: State, steps: seq<Step>, n: nat)
    requires 0 < cfg.poolSize && Sendable(cfg) && Ok(cfg, s) && Possible(cfg, s, steps)
    requires forall c <- cfg.sent :: c < n
    ensures Moves(steps) + WorkLeft(After(cfg, s, steps), n) <= WorkLeft(s, n)
    decreases |steps|
  {
    assert s.conns.Keys == cfg.sent.Keys;
    hide Ok, Enabled, Apply, WorkLeft;
    if steps == [] {
    } else {
      WorkShrinks(cfg, s, steps[0], n);
      StepOk(cfg, s, steps[0]);
      MovesBounded(cfg, Apply(cfg, s, steps[0]), steps[1..], n);
    }
  }

  /** No run goes on for ever: it has at most as many steps, empty reads aside, as there is work at the start. */
  lemma RunsAreFinite(cfg: Config, steps: seq<Step>, n: nat)
    requires 0 < cfg.poolSize && Sendable(cfg) && Possible(cfg, Init(cfg), steps)
    requires forall c <- cfg.sent :: c < n
    ensures Moves(steps) <= WorkLeft(Init(cfg), n)
  {
    hide Ok, Enabled, Apply, Init, WorkLeft;
    InitOk(cfg);
    MovesBounded(cfg, Init(cfg), steps, n);
  }

  /** No worker can take a request, and no reader can queue one or read on. */
  predicate AtRest(cfg: Config, s: State)
    requires 0 < cfg.poolSize
  {
    && (forall w :: 0 <= w < |s.queues| ==> s.queues[w] == [])
    && (forall c <- s.conns :: !Enabled(cfg, s, Dispatch(c)))
    && (forall c <- s.conns :: s.conns[c].reader == Reading && s.conns[c].frames == [] ==> s.conns[c].unread == [])
  }

  lemma AllTakenAtRest(cfg: Config, s: State, c: ConnId)
    requires 0 < cfg.poolSize && 0 < cfg.capacity && Ok(cfg, s) && AtRest(cfg, s)
    requires c in s.conns && c in cfg.sent && s.conns[c].reader == Reading
    ensures Of(c, s.taken) == Sent(c, cfg.sent[c])
  {
    hide Ok, Of, ToRequest, Sent;
    if Of(c, s.taken) != Sent(c, cfg.sent[c]) {
      SomethingMoves(cfg, s, c);
      assert false;
    }
  }

  /**
   A run that cannot go on, as every run comes to in the end, has delivered everything: of each
   connection whose reader still runs the workers have taken what its peer packed, all of it.
   */
  lemma RestMeansDelivered(cfg: Config, steps: seq<Step>, c: ConnId)
    requires 0 < cfg.poolSize && 0 < cfg.capacity && Sendable(cfg) && Possible(cfg, Init(cfg), steps)
    requires AtRest(cfg, After(cfg, Init(cfg), steps))
    ensures var s := After(cfg, Init(cfg), steps);
            c in s.conns && s.conns[c].reader == Reading ==> c in cfg.sent && Of(c, s.taken) == Sent(c, cfg.sent[c])
  {
    InitOk(cfg);
    hide ConnOk, Of, Sent, After, Possible, Init, AtRest;
    RunOk(cfg, Init(cfg), steps);
    var s := After(cfg, Init(cfg), steps);
    if c in s.conns && s.conns[c].reader == Reading {
      AllTakenAtRest(cfg, s, c);
    }
  }

  // ----- the pool of worker ids

  /** Ids held by connections. */
  function Held(s: State): set<nat>
  {
    set c | c in s.conns && s.conns[c].holding :: s.conns[c].worker
  }

  /** Free and held ids split the pool, and no id is held twice. */
  predicate Partition(cfg: Config, s: State)
  {
    && s.free !! Held(s)
    && s.free + Held(s) == Below(cfg.poolSize)
    && (forall c, d :: c in s.conns && d in s.conns && c != d && s.conns[c].holding && s.conns[d].holding ==>
          s.conns[c].worker != s.conns[d].worker)
    && (forall c <- s.conns :: s.conns[c].reader == Waiting ==> !s.conns[c].holding)
  }

  /** In bind mode the partition survives a start exactly when a free id was there. */
  lemma StartSharesExactly(cfg: Config, s: State, c: ConnId, w: nat)
    requires 0 < cfg.poolSize && cfg.bind && Partition(cfg, s) && Enabled(cfg, s, Start(c, w))
    ensures Partition(cfg, Apply(cfg, s, Start(c, w))) <==> s.free != {}
    ensures s.free == {} ==> exists d :: d in s.conns && d != c && s.conns[d].holding && s.conns[d].worker == w
  {
    var t := Apply(cfg, s, Start(c, w));
    if s.free != {} {
      HeldAfterStart(cfg, s, c, w);
    } else {
      assert w in Below(cfg.poolSize);
      assert w in Held(s);
      var d :| d in s.conns && s.conns[d].holding && s.conns[d].worker == w;
      assert t.conns[d] == s.conns[d] && t.conns[c].holding && t.conns[c].worker == w;
    }
  }

  lemma HeldAfterStart(cfg: Config, s: State, c: ConnId, w: nat)
    requires c in s.conns && !s.conns[c].holding
    ensures Held(Started(cfg, s, c, w)) == Held(s) + {w}
  {
    var t := Started(cfg, s, c, w);
    assert t.conns[c].holding;
    forall v | v in Held(s)
      ensures v in Held(t)
    {
      var d :| d in s.conns && s.conns[d].holding && s.conns[d].worker == v;
      assert t.conns[d] == s.conns[d];
    }
  }

  lemma ReleasePartition(cfg: Config, s: State, c: ConnId)
    requires cfg.bind && Partition(cfg, s) && c in s.conns && s.conns[c].holding
    ensures Partition(cfg, Released(cfg, s, c))
  {
    var t := Released(cfg, s, c);
    var w := s.conns[c].worker;
    assert w in Held(s);
    forall v | v in Held(s) && v != w
      ensures v in Held(t)
    {
      var d :| d in s.conns && s.conns[d].holding && s.conns[d].worker == v;
      assert t.conns[d] == s.conns[d];
    }
    assert Held(t) == Held(s) - {w};
  }

  /** Steps that touch neither ids nor holders keep the partition. */
  lemma SameHolders(cfg: Config, s: State, t: State)
    requires Partition(cfg, s) && t.free == s.free && t.conns.Keys == s.conns.Keys
    requires forall c <- s.conns ::
               && t.conns[c].holding == s.conns[c].holding
               && t.conns[c].worker == s.conns[c].worker
               && (t.conns[c].reader == Waiting ==> s.conns[c].reader == Waiting)
    ensures Partition(cfg, t)
  {
    assert Held(t) == Held(s);
  }

  /** Every start along the run finds a free id. */
  predicate NeverShort(cfg: Config, s: State, steps: seq<Step>)
    requires 0 < cfg.poolSize && Possible(cfg, s, steps)
    decreases |steps|
  {
    steps == [] || ((steps[0].Start? ==> s.free != {}) && NeverShort(cfg, Apply(cfg, s, steps[0]), steps[1..]))
  }

  lemma StepPartition(cfg: Config, s: State, step: Step)
    requires 0 < cfg.poolSize && cfg.bind && Partition(cfg, s) && Enabled(cfg, s, step)
    requires step.Start? ==> s.free != {}
    ensures Partition(cfg, Apply(cfg, s, step))
  {
    hide Partition, ToRequest, FD.Drain;
    match step
    case Start(c, w) => StartSharesExactly(cfg, s, c, w);
    case Release(c) => ReleasePartition(cfg, s, c);
    case _ => SameHolders(cfg, s, Apply(cfg, s, step));
  }

  /** The partition holds at every moment of the run. */
  predicate PartitionThroughout(cfg: Config, s: State, steps: seq<Step>)
    requires 0 < cfg.poolSize && Possible(cfg, s, steps)
    decreases |steps|
  {
    Partition(cfg, s) && (steps == [] || PartitionThroughout(cfg, Apply(cfg, s, steps[0]), steps[1..]))
  }

  lemma {:induction false} PartitionExactly(cfg: Config, s: State, steps: seq<Step>)
    requires 0 < cfg.poolSize && cfg.bind && Partition(cfg, s) && Possible(cfg, s, steps)
    ensures PartitionThroughout(cfg, s, steps) <==> NeverShort(cfg, s, steps)
    decreases |steps|
  {
    hide Partition, Enabled, Apply;
    if steps == [] {
    } else if steps[0].Start? && s.free == {} {
      StartSharesExactly(cfg, s, steps[0].c, steps[0].w);
    } else {
      StepPartition(cfg, s, steps[0]);
      PartitionExactly(cfg, Apply(cfg, s, steps[0]), steps[1..]);
    }
  }

  /**
   In bind mode, on every run from the start: at every moment free and held ids split the pool and
   no two connections share one, exactly when every start of the run finds a free id.
   */
  lemma RunPartition(cfg: Config, steps: seq<Step>)
    requires 0 < cfg.poolSize && cfg.bind && Possible(cfg, Init(cfg), steps)
    ensures PartitionThroughout(cfg, Init(cfg), steps) <==> NeverShort(cfg, Init(cfg), steps)
  {
    assert Held(Init(cfg)) == {};
    PartitionExactly(cfg, Init(cfg), steps);
  }

  /** Connections whose reader was started. */
  function Begun(s: State): set<ConnId>
  {
    set c | c in s.conns && s.conns[c].reader != Waiting
  }

  /** Each connection started took at most one id away. */
  predicate Enough(cfg: Config, s: State)
  {
    s.conns.Keys == cfg.sent.Keys && cfg.poolSize <= |s.free| + |Begun(s)|
  }

  lemma StartEnough(cfg: Config, s: State, c: ConnId, w: nat)
    requires cfg.bind && Enough(cfg, s) && c in s.conns && s.conns[c].reader == Waiting
    ensures Enough(cfg, Started(cfg, s, c, w))
  {
    var t := Started(cfg, s, c, w);
    assert Begun(t) == Begun(s) + {c};
    assert s.free == t.free + (s.free * {w});
    Fewer(s.free * {w}, {w});
  }

  lemma BegunKept(s: State, t: State)
    requires t.conns.Keys == s.conns.Keys
    requires forall c <- s.conns :: t.conns[c].reader == Waiting <==> s.conns[c].reader == Waiting
    ensures Begun(t) == Begun(s)
  {
  }

  lemma StepEnough(cfg: Config, s: State, step: Step)
    requires 0 < cfg.poolSize && cfg.bind && Enough(cfg, s) && Enabled(cfg, s, step)
    ensures Enough(cfg, Apply(cfg, s, step))
  {
    hide ToRequest, FD.Drain, Begun;
    var t := Apply(cfg, s, step);
    match step
    case Start(c, w) =>
      StartEnough(cfg, s, c, w);
    case _ =>
      BegunKept(s, t);
      Fewer(s.free, t.free);
  }

  lemma Fewer(a: set<nat>, b: set<nat>)
    requires a <= b
    ensures |a| <= |b|
  {
    assert b == a + (b - a);
  }

  lemma {:induction false} EnoughForAll(cfg: Config, s: State, steps: seq<Step>)
    requires 0 < cfg.poolSize && cfg.bind && |cfg.sent| <= cfg.poolSize
    requires Enough(cfg, s) && Possible(cfg, s, steps)
    ensures NeverShort(cfg, s, steps)
    decreases |steps|
  {
    hide Apply;
    if steps == [] {
    } else {
      StepEnough(cfg, s, steps[0]);
      if steps[0].Start? {
        assert Begun(s) <= cfg.sent.Keys - {steps[0].c};
        Fewer(Begun(s), cfg.sent.Keys - {steps[0].c});
        assert s.free != {};
      }
      EnoughForAll(cfg, Apply(cfg, s, steps[0]), steps[1..]);
    }
  }

  /** With more connections waiting than ids free, starting them one by one runs out. */
  lemma {:induction false} RunsShort(cfg: Config, s: State, todo: set<ConnId>) returns (steps: seq<Step>)
    requires 0 < cfg.poolSize && cfg.bind && |s.free| < |todo|
    requires forall c <- todo :: c in s.conns && s.conns[c].reader == Waiting
    ensures Possible(cfg, s, steps) && !NeverShort(cfg, s, steps)
    decreases |s.free|
  {
    var c :| c in todo;
    if s.free == {} {
      steps := [Start(c, c % cfg.poolSize)];
    } else {
      var w :| w in s.free;
      assert |s.free - {w}| == |s.free| - 1 && |todo - {c}| == |todo| - 1;
      var later := RunsShort(cfg, Apply(cfg, s, Start(c, w)), todo - {c});
      steps := [Start(c, w)] + later;
      assert steps[1..] == later;
    }
  }

  lemma {:induction false} BelowSize(n: nat)
    ensures |Below(n)| == n
  {
    if n == 0 {
    } else {
      BelowSize(n - 1);
      assert Below(n) == Below(n - 1) + {n - 1} && n - 1 !in Below(n - 1);
    }
  }

  /** In bind mode no run ever runs out of ids exactly when there are no more connections than workers. */
  lemma NeverShortExactly(cfg: Config)
    requires 0 < cfg.poolSize && cfg.bind
    ensures (forall steps :: Possible(cfg, Init(cfg), steps) ==> NeverShort(cfg, Init(cfg), steps))
       <==> |cfg.sent| <= cfg.poolSize
  {
    hide Possible, NeverShort;
    BelowSize(cfg.poolSize);
    if |cfg.sent| <= cfg.poolSize {
      forall steps | Possible(cfg, Init(cfg), steps)
        ensures NeverShort(cfg, Init(cfg), steps)
      {
        EnoughForAll(cfg, Init(cfg), steps);
      }
    } else {
      var steps := RunsShort(cfg, Init(cfg), cfg.sent.Keys);
    }
  }

  /** Free ids and those of started connections are indices of the task queues. */
  predicate IdsInRange(cfg: Config, s: State)
  {
    && |s.queues| == cfg.poolSize
    && s.free <= Below(cfg.poolSize)
    && forall c <- s.conns :: s.conns[c].reader != Waiting || s.conns[c].holding ==> s.conns[c].worker < cfg.poolSize
  }

  lemma StepIdsInRange(cfg: Config, s: State, step: Step)
    requires 0 < cfg.poolSize && IdsInRange(cfg, s) && Enabled(cfg, s, step)
    ensures IdsInRange(cfg, Apply(cfg, s, step))
  {
    hide ToRequest, FD.Drain;
    match step
    case Start(c, w) => IdInRange(cfg, s, c, w);
    case _ =>
  }

  lemma {:induction false} IdsStayInRange(cfg: Config, s: State, steps: seq<Step>)
    requires 0 < cfg.poolSize && IdsInRange(cfg, s) && Possible(cfg, s, steps)
    ensures IdsInRange(cfg, After(cfg, s, steps))
    decreases |steps|
  {
    hide IdsInRange, Enabled, Apply;
    if steps == [] {
    } else {
      StepIdsInRange(cfg, s, steps[0]);
      IdsStayInRange(cfg, Apply(cfg, s, steps[0]), steps[1..]);
    }
  }

  /**
   In either mode, on every run from the start, even one that runs out of ids: every id handed out
   so far, and every one that may be handed out next, is an index of the task queues.
   */
  lemma RunIdsInRange(cfg: Config, steps: seq<Step>)
    requires 0 < cfg.poolSize && Possible(cfg, Init(cfg), steps)
    ensures var s := After(cfg, Init(cfg), steps);
            && (forall c <- s.conns :: s.conns[c].reader != Waiting ==> s.conns[c].worker < |s.queues|)
            && (forall c: ConnId, w: nat :: Enabled(cfg, s, Start(c, w)) ==> w < |s.queues|)
  {
    IdsStayInRange(cfg, Init(cfg), steps);
    var s := After(cfg, Init(cfg), steps);
    forall c: ConnId, w: nat | Enabled(cfg, s, Start(c, w))
      ensures w < |s.queues|
    {
      IdInRange(cfg, s, c, w);
    }
  }
}
