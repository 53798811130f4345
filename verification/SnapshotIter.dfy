/**
 The concurrent iterator of the sharded map, as interleaved atomic steps: a producer goroutine per
 shard takes a snapshot under the read lock and sends it to its own channel, a forwarder goroutine
 per channel fans in to one output channel, and the output is closed when all are done. Writers of
 the map and the reader of the output go on at will.
 */
module SnapshotIter {
  import opened Options
  import opened ShardMap

  datatype Producer = Idle | Sending | Unlocked | Closed

  datatype Forwarder<+V> = Off | Ready | Holding(t: Tuple<V>) | Done

  /**
   A shard and the goroutines that serve it. `snap` is the snapshot taken at the lock, `left` the
   part of it not sent yet; the channel has room for the whole snapshot.
   */
  datatype Lane<V> = Lane(
    items: map<Key, V>, snap: map<Key, V>, left: map<Key, V>,
    producer: Producer, chan: seq<Tuple<V>>, forwarder: Forwarder<V>)

  /** `capacity` is the room of the output, known once every snapshot is taken. */
  datatype State<V> = State(
    lanes: seq<Lane<V>>, capacity: Option<nat>, out: seq<Tuple<V>>, outClosed: bool, consumed: seq<Tuple<V>>)

  datatype Step<V> =
    | Lock(i: nat)
    | Send(i: nat, k: Key)
    | Unlock(i: nat)
    | CloseLane(i: nat)
    | Open
    | Receive(i: nat)
    | Forward(i: nat)
    | Finish(i: nat)
    | CloseOut
    | Consume
    | Write(i: nat, k: Key, v: Option<V>)

  function Init<V>(shards: seq<map<Key, V>>): State<V>
  {
    State(
      seq(|shards|, i requires 0 <= i < |shards| => Lane(shards[i], map[], map[], Idle, [], Off)),
      None, [], false, [])
  }

  function SnapSizes<V>(lanes: seq<Lane<V>>): nat
  {
    if lanes == [] then 0 else |lanes[0].snap| + SnapSizes(lanes[1..])
  }

  /** Whether a step can be taken; sending into a full channel is not possible. */
  predicate Enabled<V>(place: Key -> nat, s: State<V>, step: Step<V>)
  {
    match step
    case Lock(i) => i < |s.lanes| && s.lanes[i].producer == Idle
    case Send(i, k) =>
      i < |s.lanes| && s.lanes[i].producer == Sending && k in s.lanes[i].left && |s.lanes[i].chan| < |s.lanes[i].snap|
    case Unlock(i) => i < |s.lanes| && s.lanes[i].producer == Sending && s.lanes[i].left == map[]
    case CloseLane(i) => i < |s.lanes| && s.lanes[i].producer == Unlocked
    case Open => s.capacity == None && forall i :: 0 <= i < |s.lanes| ==> s.lanes[i].producer != Idle
    case Receive(i) => i < |s.lanes| && s.lanes[i].forwarder == Ready && s.lanes[i].chan != []
    case Forward(i) =>
      i < |s.lanes| && s.lanes[i].forwarder.Holding? && s.capacity.Some? && |s.out| < s.capacity.value
    case Finish(i) =>
      i < |s.lanes| && s.lanes[i].forwarder == Ready && s.lanes[i].chan == [] && s.lanes[i].producer == Closed
    case CloseOut =>
      s.capacity.Some? && !s.outClosed && forall i :: 0 <= i < |s.lanes| ==> s.lanes[i].forwarder == Done
    case Consume => s.out != []
    case Write(i, k, v) => i < |s.lanes| && s.lanes[i].producer != Sending && place(k) == i
  }

  function NextLane<V>(x: Lane<V>, step: Step<V>): Lane<V>
    requires step.Send? ==> step.k in x.left
    requires step.Receive? ==> x.chan != []
  {
    match step
    case Lock(_) => x.(snap := x.items, left := x.items, producer := Sending)
    case Send(_, k) => x.(left := x.left - {k}, chan := x.chan + [Tuple(k, x.left[k])])
    case Unlock(_) => x.(producer := Unlocked)
    case CloseLane(_) => x.(producer := Closed)
    case Receive(_) => x.(forwarder := Holding(x.chan[0]), chan := x.chan[1..])
    case Forward(_) => x.(forwarder := Ready)
    case Finish(_) => x.(forwarder := Done)
    case Write(_, k, v) => x.(items := if v.Some? then x.items[k := v.value] else x.items - {k})
    case _ => x
  }

  function Apply<V>(place: Key -> nat, s: State<V>, step: Step<V>): State<V>
    requires Enabled(place, s, step)
  {
    match step
    case Open =>
      s.(lanes := seq(|s.lanes|, i requires 0 <= i < |s.lanes| => s.lanes[i].(forwarder := Ready)),
         capacity := Some(SnapSizes(s.lanes)))
    case CloseOut => s.(outClosed := true)
    case Consume => s.(out := s.out[1..], consumed := s.consumed + [s.out[0]])
    case Forward(i) =>
      s.(lanes := s.lanes[i := NextLane(s.lanes[i], step)], out := s.out + [s.lanes[i].forwarder.t])
    case _ => s.(lanes := s.lanes[step.i := NextLane(s.lanes[step.i], step)])
  }

  // ----- accounting

  /** Everything that came out of the fan-in, read or not. */
  function Delivered<V>(s: State<V>): seq<Tuple<V>>
  {
    s.consumed + s.out
  }

  /** The tuples of one shard among a list. */
  function From<V>(place: Key -> nat, i: nat, ts: seq<Tuple<V>>): seq<Tuple<V>>
  {
    if ts == [] then
      []
    else
      var t := ts[|ts| - 1];
      From(place, i, ts[..|ts| - 1]) + if place(t.key) == i then [t] else []
  }

  function Held<V>(x: Lane<V>): seq<Tuple<V>>
  {
    if x.forwarder.Holding? then [x.forwarder.t] else []
  }

  ghost predicate KeysAt<V>(place: Key -> nat, i: nat, m: map<Key, V>)
  {
    forall k <- m :: place(k) == i
  }

  /**
   The account of a lane: what was delivered, what is held and what waits in the channel are
   together, in this order, the part of the snapshot already sent, each pair once.
   */
  ghost predicate LaneOk<V>(place: Key -> nat, i: nat, x: Lane<V>, mine: seq<Tuple<V>>)
  {
    && KeysAt(place, i, x.items)
    && KeysAt(place, i, x.snap)
    && x.left.Keys <= x.snap.Keys
    && (forall k <- x.left :: x.left[k] == x.snap[k])
    && Lists(mine + Held(x) + x.chan, x.snap - x.left.Keys)
    && (if x.producer == Sending then x.items == x.snap else x.left == map[])
    && (x.producer == Idle ==> x.snap == map[] && x.forwarder == Off)
    && (x.forwarder == Done ==> x.producer == Closed && x.chan == [])
  }

  ghost predicate Ok<V>(place: Key -> nat, s: State<V>)
  {
    && (forall i :: 0 <= i < |s.lanes| ==> LaneOk(place, i, s.lanes[i], From(place, i, Delivered(s))))
    && (forall t <- Delivered(s) :: place(t.key) < |s.lanes|)
    && (s.capacity == None ==> Delivered(s) == [] && !s.outClosed && forall x <- s.lanes :: x.forwarder == Off)
    && (s.capacity.Some? ==>
          s.capacity.value == SnapSizes(s.lanes) && forall x <- s.lanes :: x.forwarder != Off && x.producer != Idle)
    && (s.outClosed ==> forall x <- s.lanes :: x.forwarder == Done)
  }

  lemma InitOk<V>(place: Key -> nat, shards: seq<map<Key, V>>)
    requires InPlace(shards, place, 0)
    ensures Ok(place, Init(shards))
  {
  }

  // ----- lanes

  lemma SendLane<V>(place: Key -> nat, i: nat, x: Lane<V>, mine: seq<Tuple<V>>, k: Key)
    requires LaneOk(place, i, x, mine) && x.producer == Sending && k in x.left
    ensures |x.chan| < |x.snap|
    ensures LaneOk(place, i, NextLane(x, Step<V>.Send(i, k)), mine)
  {
    var sent := mine + Held(x) + x.chan;
    ListsOneMore(sent, x.snap - x.left.Keys, k, x.left[k]);
    assert mine + Held(x) + (x.chan + [Tuple(k, x.left[k])]) == sent + [Tuple(k, x.left[k])];
    assert (x.snap - x.left.Keys)[k := x.left[k]] == x.snap - (x.left - {k}).Keys;
    LaneSizes(place, i, x, mine);
  }

  lemma ListsSize<V>(ts: seq<Tuple<V>>, m: map<Key, V>)
    requires Lists(ts, m)
    ensures |ts| == |m|
    decreases |ts|
  {
    if ts == [] {
      assert m.Keys == {};
    } else {
      var n := |ts| - 1;
      ListsButLast(ts, m);
      ListsSize(ts[..n], m - {ts[n].key});
      assert (m - {ts[n].key}).Keys == m.Keys - {ts[n].key};
      assert |m.Keys - {ts[n].key}| == |m.Keys| - 1;
    }
  }

  lemma ListsButLast<V>(ts: seq<Tuple<V>>, m: map<Key, V>)
    requires Lists(ts, m) && ts != []
    ensures var n := |ts| - 1;
            ts[n].key in m && Lists(ts[..n], m - {ts[n].key})
  {
    var n := |ts| - 1;
    assert ts[n] in ts;
    assert ts == ts[..n] + [ts[n]];
    forall t | t in ts[..n]
      ensures t.key in m - {ts[n].key} && m[t.key] == t.val
    {
      assert t in ts;
    }
    forall k | k in m - {ts[n].key}
      ensures Tuple(k, m[k]) in ts[..n]
    {
      assert Tuple(k, m[k]) in ts;
    }
  }

  /** Delivered, held, queued and unsent add up to the snapshot. */
  lemma LaneSizes<V>(place: Key -> nat, i: nat, x: Lane<V>, mine: seq<Tuple<V>>)
    requires LaneOk(place, i, x, mine)
    ensures |mine| + |Held(x)| + |x.chan| + |x.left| == |x.snap|
  {
    ListsSize(mine + Held(x) + x.chan, x.snap - x.left.Keys);
    assert (x.snap - x.left.Keys).Keys == x.snap.Keys - x.left.Keys;
    assert |x.snap.Keys| == |x.snap.Keys - x.left.Keys| + |x.left.Keys|;
  }

  lemma ReceiveLane<V>(place: Key -> nat, i: nat, x: Lane<V>, mine: seq<Tuple<V>>)
    requires LaneOk(place, i, x, mine) && x.forwarder == Ready && x.chan != []
    ensures LaneOk(place, i, NextLane(x, Step<V>.Receive(i)), mine)
  {
    assert mine + [x.chan[0]] + x.chan[1..] == mine + [] + x.chan;
  }

  lemma ForwardLane<V>(place: Key -> nat, i: nat, x: Lane<V>, mine: seq<Tuple<V>>)
    requires LaneOk(place, i, x, mine) && x.forwarder.Holding?
    ensures place(x.forwarder.t.key) == i
    ensures LaneOk(place, i, NextLane(x, Step<V>.Forward(i)), mine + [x.forwarder.t])
  {
    var t := x.forwarder.t;
    assert mine + [t] + x.chan == mine + [t] + [] + x.chan;
    assert (mine + Held(x) + x.chan)[|mine|] == t;
    assert t in mine + Held(x) + x.chan;
  }

  lemma LockLane<V>(place: Key -> nat, i: nat, x: Lane<V>, mine: seq<Tuple<V>>)
    requires LaneOk(place, i, x, mine) && x.producer == Idle
    ensures LaneOk(place, i, NextLane(x, Step<V>.Lock(i)), mine)
  {
    assert x.items - x.items.Keys == map[] == x.snap - x.left.Keys;
  }

  // ----- steps

  /** A step of one lane that delivers nothing. */
  predicate OnLane<V>(step: Step<V>)
  {
    step.Lock? || step.Send? || step.Unlock? || step.CloseLane? || step.Receive? || step.Finish? || step.Write?
  }

  /** The steps that neither send, take nor lock leave every part of the account as it is. */
  lemma QuietLane<V>(place: Key -> nat, i: nat, x: Lane<V>, mine: seq<Tuple<V>>, step: Step<V>)
    requires LaneOk(place, i, x, mine)
    requires step.Unlock? ==> x.producer == Sending && x.left == map[]
    requires step.CloseLane? ==> x.producer == Unlocked
    requires step.Finish? ==> x.forwarder == Ready && x.chan == [] && x.producer == Closed
    requires step.Write? ==> x.producer != Sending && place(step.k) == i
    requires step.Unlock? || step.CloseLane? || step.Finish? || step.Write?
    ensures LaneOk(place, i, NextLane(x, step), mine)
  {
    hide Lists;
  }

  lemma LaneStepOk<V>(place: Key -> nat, s: State<V>, step: Step<V>)
    requires Ok(place, s) && Enabled(place, s, step) && OnLane(step)
    ensures var mine := From(place, step.i, Delivered(s));
            LaneOk(place, step.i, NextLane(s.lanes[step.i], step), mine)
  {
    hide From, LaneOk, NextLane;
    var at := step.i;
    var x, mine := s.lanes[at], From(place, at, Delivered(s));
    match step
    case Lock(i) => LockLane(place, i, x, mine);
    case Send(i, k) => SendLane(place, i, x, mine, k);
    case Receive(i) => ReceiveLane(place, i, x, mine);
    case _ => QuietLane(place, at, x, mine, step);
  }

  lemma SameSnapsSameSize<V>(a: seq<Lane<V>>, b: seq<Lane<V>>)
    requires |a| == |b| && forall i :: 0 <= i < |a| ==> a[i].snap == b[i].snap
    ensures SnapSizes(a) == SnapSizes(b)
  {
    if a == [] {
    } else {
      SameSnapsSameSize(a[1..], b[1..]);
    }
  }

  /** A lane may be replaced by one with the same account and a state the iterator's phase allows. */
  lemma ReplaceLane<V>(place: Key -> nat, s: State<V>, i: nat, x: Lane<V>)
    requires Ok(place, s) && i < |s.lanes| && LaneOk(place, i, x, From(place, i, Delivered(s)))
    requires s.capacity == None ==> x.forwarder == Off
    requires s.capacity.Some? ==> x.snap == s.lanes[i].snap && x.forwarder != Off && x.producer != Idle
    requires s.outClosed ==> x.forwarder == Done
    ensures Ok(place, s.(lanes := s.lanes[i := x]))
  {
    hide From, LaneOk;
    var t := s.(lanes := s.lanes[i := x]);
    assert Delivered(t) == Delivered(s);
    if s.capacity.Some? {
      SameSnapsSameSize(s.lanes, t.lanes);
    }
  }

  lemma OnLaneOk<V>(place: Key -> nat, s: State<V>, step: Step<V>)
    requires Ok(place, s) && Enabled(place, s, step) && OnLane(step)
    ensures Ok(place, Apply(place, s, step))
  {
    hide From, LaneOk;
    LaneStepOk(place, s, step);
    assert s.lanes[step.i] in s.lanes;
    ReplaceLane(place, s, step.i, NextLane(s.lanes[step.i], step));
  }

  lemma {:induction false} FromOneMore<V>(place: Key -> nat, i: nat, ts: seq<Tuple<V>>, t: Tuple<V>)
    ensures From(place, i, ts + [t]) == From(place, i, ts) + if place(t.key) == i then [t] else []
  {
    assert (ts + [t])[..|ts|] == ts;
  }

  lemma ForwardOk<V>(place: Key -> nat, s: State<V>, i: nat)
    requires Ok(place, s) && Enabled(place, s, Step<V>.Forward(i))
    ensures Ok(place, Apply(place, s, Step<V>.Forward(i)))
  {
    hide From, LaneOk;
    var t := Apply(place, s, Step<V>.Forward(i));
    var tuple := s.lanes[i].forwarder.t;
    assert s.lanes[i] in s.lanes;
    ForwardLane(place, i, s.lanes[i], From(place, i, Delivered(s)));
    assert Delivered(t) == Delivered(s) + [tuple];
    forall j | 0 <= j < |t.lanes|
      ensures LaneOk(place, j, t.lanes[j], From(place, j, Delivered(t)))
    {
      FromOneMore(place, j, Delivered(s), tuple);
      assert From(place, j, Delivered(s)) + [] == From(place, j, Delivered(s));
    }
    SameSnapsSameSize(s.lanes, t.lanes);
  }

  lemma OpenLane<V>(place: Key -> nat, i: nat, x: Lane<V>, mine: seq<Tuple<V>>)
    requires LaneOk(place, i, x, mine) && x.forwarder == Off && x.producer != Idle
    ensures LaneOk(place, i, x.(forwarder := Ready), mine)
  {
  }

  lemma OpenOk<V>(place: Key -> nat, s: State<V>)
    requires Ok(place, s) && Enabled(place, s, Step<V>.Open)
    ensures Ok(place, Apply(place, s, Step<V>.Open))
  {
    hide From, LaneOk;
    var t := Apply(place, s, Step<V>.Open);
    SameSnapsSameSize(s.lanes, t.lanes);
    assert Delivered(t) == Delivered(s);
    forall i | 0 <= i < |t.lanes|
      ensures LaneOk(place, i, t.lanes[i], From(place, i, Delivered(t)))
    {
      assert s.lanes[i] in s.lanes;
      OpenLane(place, i, s.lanes[i], From(place, i, Delivered(s)));
    }
  }

  /** Every step of any goroutine keeps the account. */
  lemma StepOk<V>(place: Key -> nat, s: State<V>, step: Step<V>)
    requires Ok(place, s) && Enabled(place, s, step)
    ensures Ok(place, Apply(place, s, step))
  {
    match step
    case Open => OpenOk(place, s);
    case Forward(i) => ForwardOk(place, s, i);
    case CloseOut => CloseOk(place, s);
    case Consume => ConsumeOk(place, s);
    case _ => OnLaneOk(place, s, step);
  }

  lemma ConsumeOk<V>(place: Key -> nat, s: State<V>)
    requires Ok(place, s) && s.out != []
    ensures Ok(place, Apply(place, s, Step<V>.Consume))
  {
    hide LaneOk, From;
    assert Delivered(Apply(place, s, Step<V>.Consume)) == Delivered(s);
  }

  lemma CloseOk<V>(place: Key -> nat, s: State<V>)
    requires Ok(place, s) && Enabled(place, s, Step<V>.CloseOut)
    ensures Ok(place, Apply(place, s, Step<V>.CloseOut))
  {
    hide LaneOk, From;
    assert Delivered(Apply(place, s, Step<V>.CloseOut)) == Delivered(s);
  }

  predicate Possible<V>(place: Key -> nat, s: State<V>, steps: seq<Step<V>>)
    decreases |steps|
  {
    steps == [] || (Enabled(place, s, steps[0]) && Possible(place, Apply(place, s, steps[0]), steps[1..]))
  }

  function After<V>(place: Key -> nat, s: State<V>, steps: seq<Step<V>>): State<V>
    requires Possible(place, s, steps)
    decreases |steps|
  {
    if steps == [] then s else After(place, Apply(place, s, steps[0]), steps[1..])
  }

  lemma {:induction false} RunOk<V>(place: Key -> nat, s: State<V>, steps: seq<Step<V>>)
    requires Ok(place, s) && Possible(place, s, steps)
    ensures Ok(place, After(place, s, steps))
    decreases |steps|
  {
    hide Ok, Apply, Enabled;
    if steps == [] {
    } else {
      StepOk(place, s, steps[0]);
      RunOk(place, Apply(place, s, steps[0]), steps[1..]);
    }
  }

  // ----- what comes out

  function Snaps<V>(s: State<V>): (ms: seq<map<Key, V>>)
    ensures |ms| == |s.lanes| && forall i :: 0 <= i < |ms| ==> ms[i] == s.lanes[i].snap
  {
    seq(|s.lanes|, i requires 0 <= i < |s.lanes| => s.lanes[i].snap)
  }

  lemma {:induction false} FromMember<V>(place: Key -> nat, i: nat, ts: seq<Tuple<V>>, t: Tuple<V>)
    ensures t in From(place, i, ts) <==> t in ts && place(t.key) == i
  {
    if ts == [] {
    } else {
      var n := |ts| - 1;
      FromMember(place, i, ts[..n], t);
      assert ts == ts[..n] + [ts[n]];
    }
  }

  lemma {:induction false} FromDistinct<V>(place: Key -> nat, i: nat, ts: seq<Tuple<V>>, m: map<Key, V>, a: nat, b: nat)
    requires a < b < |ts| && place(ts[a].key) == i == place(ts[b].key) && Lists(From(place, i, ts), m)
    ensures ts[a].key != ts[b].key
  {
    hide From;
    var n := |ts| - 1;
    var mine := From(place, i, ts[..n]);
    FromOneMore(place, i, ts[..n], ts[n]);
    assert ts[..n] + [ts[n]] == ts && mine + [] == mine;
    if b == n {
      FromMember(place, i, ts[..n], ts[a]);
      assert ts[..n][a] == ts[a] && ts[a] in mine;
      var j :| 0 <= j < |mine| && mine[j] == ts[a];
      assert From(place, i, ts)[j] == ts[a] && From(place, i, ts)[|mine|] == ts[b];
    } else if place(ts[n].key) == i {
      ListsButLast(From(place, i, ts), m);
      assert From(place, i, ts)[..|mine|] == mine;
      FromDistinct(place, i, ts[..n], m - {ts[n].key}, a, b);
    } else {
      assert From(place, i, ts) == mine;
      FromDistinct(place, i, ts[..n], m, a, b);
    }
  }

  lemma AllLanesListed<V>(place: Key -> nat, ts: seq<Tuple<V>>, ms: seq<map<Key, V>>)
    requires InPlace(ms, place, 0)
    requires forall i :: 0 <= i < |ms| ==> Lists(From(place, i, ts), ms[i])
    requires forall t <- ts :: place(t.key) < |ms|
    ensures Lists(ts, Merge(ms))
  {
    hide From, Merge;
    forall a, b | 0 <= a < b < |ts|
      ensures ts[a].key != ts[b].key
    {
      if ts[a].key == ts[b].key {
        var i := place(ts[a].key);
        assert ts[a] in ts;
        FromDistinct(place, i, ts, ms[i], a, b);
      }
    }
    forall t | t in ts
      ensures t.key in Merge(ms) && Merge(ms)[t.key] == t.val
    {
      var i := place(t.key);
      FromMember(place, i, ts, t);
      assert t in From(place, i, ts);
      MergeLookup(ms, place, 0, t.key);
    }
    forall k | k in Merge(ms)
      ensures Tuple(k, Merge(ms)[k]) in ts
    {
      MergeLookup(ms, place, 0, k);
      var i := place(k);
      assert Tuple(k, ms[i][k]) in From(place, i, ts);
      FromMember(place, i, ts, Tuple(k, ms[i][k]));
    }
  }

  lemma DoneLane<V>(place: Key -> nat, i: nat, x: Lane<V>, mine: seq<Tuple<V>>)
    requires LaneOk(place, i, x, mine) && x.forwarder == Done
    ensures Lists(mine, x.snap) && KeysAt(place, i, x.snap)
  {
    hide Lists, KeysAt;
    assert mine + [] + [] == mine;
    assert x.snap - x.left.Keys == x.snap;
  }

  /**
   When the output is closed, what came out is exactly the union of the snapshots, one taken of
   each shard at the moment it was locked, with no key twice.
   */
  lemma ClosedDeliversSnapshots<V>(place: Key -> nat, s: State<V>)
    requires Ok(place, s) && s.outClosed
    ensures Lists(Delivered(s), Merge(Snaps(s)))
  {
    hide From, Merge, LaneOk, Lists;
    forall i | 0 <= i < |s.lanes|
      ensures Lists(From(place, i, Delivered(s)), s.lanes[i].snap) && KeysAt(place, i, s.lanes[i].snap)
    {
      assert s.lanes[i] in s.lanes;
      DoneLane(place, i, s.lanes[i], From(place, i, Delivered(s)));
    }
    AllLanesListed(place, Delivered(s), Snaps(s));
  }

  /** The step works on lane `i` by itself. */
  predicate StepsOn<V>(step: Step<V>, i: nat)
  {
    (OnLane(step) || step.Forward?) && step.i == i
  }

  /** A step changes a lane only as `NextLane` says, and leaves it in its place. */
  lemma LaneAfterStep<V>(place: Key -> nat, s: State<V>, step: Step<V>, i: nat)
    requires Enabled(place, s, step) && i < |s.lanes|
    ensures var t := Apply(place, s, step);
            && |t.lanes| == |s.lanes|
            && t.lanes[i] == if step.Open? then s.lanes[i].(forwarder := Ready)
                             else if StepsOn(step, i) then NextLane(s.lanes[i], step)
                             else s.lanes[i]
  {
    hide NextLane;
  }

  /** A lane leaves the idle state only at its lock, with its content as snapshot, and keeps that for good. */
  lemma SnapAfterStep<V>(place: Key -> nat, s: State<V>, step: Step<V>, i: nat)
    requires Enabled(place, s, step) && i < |s.lanes|
    ensures var t := Apply(place, s, step);
            && |t.lanes| == |s.lanes|
            && (s.lanes[i].producer != Idle ==> t.lanes[i].producer != Idle && t.lanes[i].snap == s.lanes[i].snap)
            && (s.lanes[i].producer == Idle ==>
                 if step == Lock(i) then t.lanes[i].producer != Idle && t.lanes[i].snap == s.lanes[i].items
                 else t.lanes[i].producer == Idle)
  {
    hide Apply;
    LaneAfterStep(place, s, step, i);
  }

  /** A snapshot once taken stays. */
  lemma {:induction false} SnapStays<V>(place: Key -> nat, s: State<V>, steps: seq<Step<V>>, i: nat)
    requires Possible(place, s, steps) && i < |s.lanes|
    ensures |After(place, s, steps).lanes| == |s.lanes|
    ensures s.lanes[i].producer != Idle ==> After(place, s, steps).lanes[i].snap == s.lanes[i].snap
    decreases |steps|
  {
    hide Enabled, Apply;
    if steps == [] {
    } else {
      SnapAfterStep(place, s, steps[0], i);
      SnapStays(place, Apply(place, s, steps[0]), steps[1..], i);
    }
  }

  /** Step `j` of the run locks shard `i`, whose content at that moment is `m`. */
  predicate LockedAt<V(==)>(place: Key -> nat, s: State<V>, steps: seq<Step<V>>, i: nat, j: nat, m: map<Key, V>)
  {
    && j < |steps|
    && steps[j] == Lock(i)
    && Possible(place, s, steps[..j])
    && i < |After(place, s, steps[..j]).lanes|
    && After(place, s, steps[..j]).lanes[i].items == m
  }

  /** At one moment of the run, that of its lock, the whole content of shard `i` was `m`. */
  ghost predicate WasContent<V>(place: Key -> nat, s: State<V>, steps: seq<Step<V>>, i: nat, m: map<Key, V>)
  {
    exists j: nat :: LockedAt(place, s, steps, i, j, m)
  }

  /** A snapshot that a run has taken was the content of its shard at the moment of the lock. */
  lemma {:induction false} SnapWasContent<V>(place: Key -> nat, s: State<V>, steps: seq<Step<V>>, i: nat)
    returns (j: nat)
    requires Possible(place, s, steps) && i < |s.lanes| && s.lanes[i].producer == Idle
    requires i < |After(place, s, steps).lanes| && After(place, s, steps).lanes[i].producer != Idle
    ensures LockedAt(place, s, steps, i, j, After(place, s, steps).lanes[i].snap)
    decreases |steps|
  {
    hide Enabled, Apply;
    if steps == [] {
      assert false;
    } else {
      var t := Apply(place, s, steps[0]);
      SnapAfterStep(place, s, steps[0], i);
      if steps[0] == Lock(i) {
        SnapStays(place, t, steps[1..], i);
        j := 0;
      } else {
        var later := SnapWasContent(place, t, steps[1..], i);
        j := later + 1;
        assert steps[..j][1..] == steps[1..][..later];
      }
    }
  }

  /** Shards come and go nowhere. */
  lemma {:induction false} LanesStay<V>(place: Key -> nat, s: State<V>, steps: seq<Step<V>>)
    requires Possible(place, s, steps)
    ensures |After(place, s, steps).lanes| == |s.lanes|
    decreases |steps|
  {
    hide Enabled, Apply;
    if steps == [] {
    } else {
      StepKeepsLanes(place, s, steps[0]);
      LanesStay(place, Apply(place, s, steps[0]), steps[1..]);
    }
  }

  lemma StepKeepsLanes<V>(place: Key -> nat, s: State<V>, step: Step<V>)
    requires Enabled(place, s, step)
    ensures |Apply(place, s, step).lanes| == |s.lanes|
  {
  }

  /**
   Over every run, from any map whose keys are in their shards: when the output is closed what came
   out is the union of one snapshot a shard, no key twice, and each snapshot is the whole content
   that its shard had at one moment of the run, that of its lock.
   */
  lemma RunDeliversSnapshots<V>(place: Key -> nat, shards: seq<map<Key, V>>, steps: seq<Step<V>>)
    requires InPlace(shards, place, 0) && Possible(place, Init(shards), steps)
    ensures var s := After(place, Init(shards), steps);
            s.outClosed ==>
              && Lists(s.consumed + s.out, Merge(Snaps(s)))
              && |Snaps(s)| == |shards|
              && forall i :: 0 <= i < |shards| ==> WasContent(place, Init(shards), steps, i, Snaps(s)[i])
  {
    hide Ok, Enabled, Apply, Merge, After, Possible, LockedAt, Init;
    InitOk(place, shards);
    RunOk(place, Init(shards), steps);
    var s := After(place, Init(shards), steps);
    LanesStay(place, Init(shards), steps);
    InitLanes(shards);
    if s.outClosed {
      ClosedDeliversSnapshots(place, s);
      forall i | 0 <= i < |shards|
        ensures WasContent(place, Init(shards), steps, i, Snaps(s)[i])
      {
        NoneIdleWhenClosed(place, s, i);
        var j := SnapWasContent(place, Init(shards), steps, i);
      }
    }
  }

  lemma InitLanes<V>(shards: seq<map<Key, V>>)
    ensures |Init(shards).lanes| == |shards|
    ensures forall i :: 0 <= i < |shards| ==>
              Init(shards).lanes[i].producer == Idle && Init(shards).lanes[i].items == shards[i]
  {
  }

  lemma NoneIdleWhenClosed<V>(place: Key -> nat, s: State<V>, i: nat)
    requires Ok(place, s) && s.outClosed && i < |s.lanes|
    ensures s.lanes[i].producer != Idle
  {
    hide LaneOk, From;
    assert s.lanes[i] in s.lanes;
  }

  /** What a map says of a key. */
  function Lookup<V>(m: map<Key, V>, k: Key): Option<V>
  {
    if k in m then Some(m[k]) else None
  }

  lemma SnapsInPlace<V>(place: Key -> nat, s: State<V>)
    requires Ok(place, s)
    ensures InPlace(Snaps(s), place, 0)
  {
    hide From, Lists;
    forall i, k | 0 <= i < |Snaps(s)| && k in Snaps(s)[i]
      ensures place(k) == i
    {
      assert LaneOk(place, i, s.lanes[i], From(place, i, Delivered(s)));
    }
  }

  lemma ListedLookup<V>(ts: seq<Tuple<V>>, m: map<Key, V>, k: Key, v: V)
    requires Lists(ts, m)
    ensures Tuple(k, v) in ts <==> Lookup(m, k) == Some(v)
  {
  }

  /** What the last write to `k` among `steps` left there, `held` if there was none. */
  function LastWrite<V>(steps: seq<Step<V>>, k: Key, held: Option<V>): Option<V>
  {
    if steps == [] then held
    else LastWrite(steps[1..], k, if steps[0].Write? && steps[0].k == k then steps[0].v else held)
  }

  /** A step that writes the key changes it as the write says; no other step touches it. */
  lemma WriteStep<V>(place: Key -> nat, s: State<V>, step: Step<V>, k: Key)
    requires Enabled(place, s, step) && place(k) < |s.lanes|
    ensures var t := Apply(place, s, step);
            && |t.lanes| == |s.lanes|
            && Lookup(t.lanes[place(k)].items, k)
            == LastWrite([step], k, Lookup(s.lanes[place(k)].items, k))
  {
    hide Apply;
    LaneAfterStep(place, s, step, place(k));
    assert [step][1..] == [];
  }

  lemma {:induction false} ContentIsLastWrite<V>(place: Key -> nat, s: State<V>, steps: seq<Step<V>>, k: Key)
    requires Possible(place, s, steps) && place(k) < |s.lanes|
    ensures place(k) < |After(place, s, steps).lanes|
    ensures Lookup(After(place, s, steps).lanes[place(k)].items, k)
         == LastWrite(steps, k, Lookup(s.lanes[place(k)].items, k))
    decreases |steps|
  {
    hide Enabled, Apply, Lookup;
    if steps == [] {
    } else {
      WriteStep(place, s, steps[0], k);
      assert [steps[0]][1..] == [];
      ContentIsLastWrite(place, Apply(place, s, steps[0]), steps[1..], k);
    }
  }

  /**
   A key comes out of a closed output with what its last write before the lock of its shard left
   there: the value written, nothing after a removal, and what the map held if nobody wrote it.
   */
  lemma LastWriteDelivered<V>(place: Key -> nat, shards: seq<map<Key, V>>, steps: seq<Step<V>>, k: Key, v: V)
    returns (j: nat)
    requires InPlace(shards, place, 0) && Possible(place, Init(shards), steps)
    requires After(place, Init(shards), steps).outClosed && place(k) < |shards|
    ensures j < |steps| && steps[j] == Lock(place(k))
    ensures var s := After(place, Init(shards), steps);
            Tuple(k, v) in s.consumed + s.out <==> LastWrite(steps[..j], k, Lookup(shards[place(k)], k)) == Some(v)
  {
    hide Enabled, Apply, Merge, After, Possible, Init, Ok, InPlace, Lists, LastWrite;
    RunDeliversSnapshots(place, shards, steps);
    InitLanes(shards);
    var s := After(place, Init(shards), steps);
    InitOk(place, shards);
    RunOk(place, Init(shards), steps);
    SnapsInPlace(place, s);
    MergeLookup(Snaps(s), place, 0, k);
    ListedLookup(s.consumed + s.out, Merge(Snaps(s)), k, v);
    j :| LockedAt(place, Init(shards), steps, place(k), j, Snaps(s)[place(k)]);
    ContentIsLastWrite(place, Init(shards), steps[..j], k);
  }

  /** Nobody writes the key during the run. */
  predicate Untouched<V(==)>(steps: seq<Step<V>>, k: Key)
  {
    forall step <- steps :: step.Write? ==> step.k != k
  }

  lemma {:induction false} NoLastWrite<V>(steps: seq<Step<V>>, j: nat, k: Key, held: Option<V>)
    requires Untouched(steps, k) && j <= |steps|
    ensures LastWrite(steps[..j], k, held) == held
    decreases j
  {
    if j == 0 {
    } else {
      assert steps[0] in steps && steps[..j][1..] == steps[1..][..j - 1];
      NoLastWrite(steps[1..], j - 1, k, held);
    }
  }

  /**
   A key nobody writes while the iterator runs comes out exactly when the map held it, with its
   value, whatever happens to the other keys.
   */
  lemma UntouchedKeyDelivered<V>(place: Key -> nat, shards: seq<map<Key, V>>, steps: seq<Step<V>>, k: Key, v: V)
    requires InPlace(shards, place, 0) && Possible(place, Init(shards), steps) && Untouched(steps, k)
    ensures var s := After(place, Init(shards), steps);
            s.outClosed ==> (Tuple(k, v) in s.consumed + s.out <==> Lookup(Merge(shards), k) == Some(v))
  {
    hide Enabled, Apply, Merge, After, Possible, LockedAt, Init, Ok, InPlace, Untouched, Lists, LastWrite;
    var s := After(place, Init(shards), steps);
    if s.outClosed {
      MergeLookup(shards, place, 0, k);
      if place(k) < |shards| {
        var j := LastWriteDelivered(place, shards, steps, k, v);
        NoLastWrite(steps, j, k, Lookup(shards[place(k)], k));
      } else {
        NothingFromNowhere(place, shards, steps, k, v);
      }
    }
  }

  lemma NothingFromNowhere<V>(place: Key -> nat, shards: seq<map<Key, V>>, steps: seq<Step<V>>, k: Key, v: V)
    requires InPlace(shards, place, 0) && Possible(place, Init(shards), steps) && |shards| <= place(k)
    ensures var s := After(place, Init(shards), steps);
            Tuple(k, v) !in s.consumed + s.out
  {
    hide Enabled, Apply, Merge, After, Possible, Init, LaneOk, InPlace, From;
    InitOk(place, shards);
    RunOk(place, Init(shards), steps);
    LanesStay(place, Init(shards), steps);
    InitLanes(shards);
  }

  // ----- never blocked, never stuck

  function SumFrom<V>(place: Key -> nat, first: nat, n: nat, ts: seq<Tuple<V>>): nat
    decreases n
  {
    if n == 0 then 0 else |From(place, first, ts)| + SumFrom(place, first + 1, n - 1, ts)
  }

  lemma {:induction false} SumFromOneMore<V>(place: Key -> nat, first: nat, n: nat, ts: seq<Tuple<V>>, t: Tuple<V>)
    ensures SumFrom(place, first, n, ts + [t])
         == SumFrom(place, first, n, ts) + if first <= place(t.key) < first + n then 1 else 0
    decreases n
  {
    hide From;
    if n == 0 {
    } else {
      FromOneMore(place, first, ts, t);
      SumFromOneMore(place, first + 1, n - 1, ts, t);
    }
  }

  lemma {:induction false} SumFromNothing<V>(place: Key -> nat, first: nat, n: nat)
    ensures SumFrom<V>(place, first, n, []) == 0
    decreases n
  {
    if n == 0 {
    } else {
      SumFromNothing<V>(place, first + 1, n - 1);
    }
  }

  lemma {:induction false} SumFromIsAll<V>(place: Key -> nat, n: nat, ts: seq<Tuple<V>>)
    requires forall t <- ts :: place(t.key) < n
    ensures SumFrom(place, 0, n, ts) == |ts|
  {
    hide SumFrom;
    if ts == [] {
      SumFromNothing<V>(place, 0, n);
    } else {
      var m := |ts| - 1;
      assert ts == ts[..m] + [ts[m]];
      SumFromIsAll(place, n, ts[..m]);
      SumFromOneMore(place, 0, n, ts[..m], ts[m]);
    }
  }

  /** What was delivered fits the snapshots, with room to spare for whatever is held. */
  lemma {:induction false} RoomForHeld<V>(place: Key -> nat, lanes: seq<Lane<V>>, first: nat, ts: seq<Tuple<V>>, h: nat)
    requires h < |lanes|
    requires forall i :: 0 <= i < |lanes| ==> LaneOk(place, first + i, lanes[i], From(place, first + i, ts))
    ensures SumFrom(place, first, |lanes|, ts) + |Held(lanes[h])| <= SnapSizes(lanes)
    decreases |lanes|
  {
    hide LaneOk, From;
    var rest := lanes[1..];
    LaneSizes(place, first, lanes[0], From(place, first, ts));
    forall i | 0 <= i < |rest|
      ensures LaneOk(place, first + 1 + i, rest[i], From(place, first + 1 + i, ts))
    {
      assert rest[i] == lanes[i + 1];
    }
    if rest == [] {
    } else {
      RoomForHeld(place, rest, first + 1, ts, if h > 0 then h - 1 else 0);
    }
  }

  lemma {:induction false} NothingUndelivered<V>(place: Key -> nat, lanes: seq<Lane<V>>, first: nat, ts: seq<Tuple<V>>)
    requires forall i :: 0 <= i < |lanes| ==> LaneOk(place, first + i, lanes[i], From(place, first + i, ts))
    requires forall i :: 0 <= i < |lanes| ==> lanes[i].left == map[] && lanes[i].chan == [] && Held(lanes[i]) == []
    ensures SumFrom(place, first, |lanes|, ts) == SnapSizes(lanes)
    decreases |lanes|
  {
    hide LaneOk, From, Held;
    if lanes == [] {
    } else {
      var rest := lanes[1..];
      LaneSizes(place, first, lanes[0], From(place, first, ts));
      forall i | 0 <= i < |rest|
        ensures LaneOk(place, first + 1 + i, rest[i], From(place, first + 1 + i, ts))
      {
        assert rest[i] == lanes[i + 1];
      }
      NothingUndelivered(place, rest, first + 1, ts);
    }
  }

  /** The output has room for what comes out and no more: closed and unread, it is full. */
  lemma RoomIsExact<V>(place: Key -> nat, s: State<V>)
    requires Ok(place, s) && s.outClosed
    ensures s.capacity == Some(|s.consumed| + |s.out|)
  {
    hide From, SumFrom, Lists;
    forall i | 0 <= i < |s.lanes|
      ensures s.lanes[i].left == map[] && s.lanes[i].chan == [] && Held(s.lanes[i]) == []
    {
      assert s.lanes[i] in s.lanes && LaneOk(place, i, s.lanes[i], From(place, i, Delivered(s)));
    }
    hide LaneOk;
    NothingUndelivered(place, s.lanes, 0, Delivered(s));
    SumFromIsAll(place, |s.lanes|, Delivered(s));
  }

  /** A forwarder that holds a tuple finds room in the output, even when nobody ever reads from it. */
  lemma ForwardNeverBlocks<V>(place: Key -> nat, s: State<V>, i: nat)
    requires Ok(place, s) && i < |s.lanes| && s.lanes[i].forwarder.Holding?
    ensures Enabled(place, s, Step<V>.Forward(i))
  {
    hide LaneOk, From, SumFrom;
    assert s.lanes[i] in s.lanes;
    RoomForHeld(place, s.lanes, 0, Delivered(s), i);
    SumFromIsAll(place, |s.lanes|, Delivered(s));
  }

  /** A producer that has something to send finds room in its channel. */
  lemma SendNeverBlocks<V>(place: Key -> nat, s: State<V>, i: nat, k: Key)
    requires Ok(place, s) && i < |s.lanes| && s.lanes[i].producer == Sending && k in s.lanes[i].left
    ensures Enabled(place, s, Step<V>.Send(i, k))
  {
    hide From;
    SendLane(place, i, s.lanes[i], From(place, i, Delivered(s)), k);
  }

  lemma Preceded<V>(place: Key -> nat, s: State<V>, step: Step<V>, later: seq<Step<V>>)
    requires Enabled(place, s, step) && Possible(place, Apply(place, s, step), later)
    ensures Possible(place, s, [step] + later)
    ensures After(place, s, [step] + later) == After(place, Apply(place, s, step), later)
  {
    hide Enabled, Apply;
    assert ([step] + later)[1..] == later;
  }

  /** A send brings the unlock nearer. */
  lemma SendNext<V>(place: Key -> nat, s: State<V>, i: nat, j: Key)
    requires Ok(place, s) && i < |s.lanes| && s.lanes[i].producer == Sending && j in s.lanes[i].left
    ensures Enabled(place, s, Step<V>.Send(i, j))
    ensures var t := Apply(place, s, Step<V>.Send(i, j));
            && Ok(place, t) && |t.lanes| == |s.lanes| && t.lanes[i].producer == Sending
            && |t.lanes[i].left| == |s.lanes[i].left| - 1
  {
    SendNeverBlocks(place, s, i, j);
    hide From, LaneOk, Ok;
    StepOk(place, s, Step<V>.Send(i, j));
    var t := Apply(place, s, Step<V>.Send(i, j));
    assert t.lanes[i].left.Keys == s.lanes[i].left.Keys - {j};
    assert |t.lanes[i].left.Keys| == |s.lanes[i].left.Keys| - 1;
  }

  lemma UnlockNext<V>(place: Key -> nat, s: State<V>, k: Key, v: Option<V>)
    requires place(k) < |s.lanes| && s.lanes[place(k)].producer == Sending && s.lanes[place(k)].left == map[]
    ensures Enabled(place, s, Step<V>.Unlock(place(k)))
    ensures Enabled(place, Apply(place, s, Step<V>.Unlock(place(k))), Write(place(k), k, v))
  {
  }

  lemma WriterFree<V>(place: Key -> nat, s: State<V>, k: Key, v: Option<V>)
    requires place(k) < |s.lanes| && s.lanes[place(k)].producer != Sending
    ensures Enabled(place, s, Write(place(k), k, v))
  {
  }

  /**
   A writer waits for nothing but the read lock of its shard, and not for ever: whatever the other
   goroutines do, after the sends that are left and the unlock it gets in.
   */
  lemma {:induction false} WriterGetsIn<V>(place: Key -> nat, s: State<V>, k: Key, v: Option<V>)
    returns (steps: seq<Step<V>>)
    requires Ok(place, s) && place(k) < |s.lanes|
    ensures Possible(place, s, steps) && Enabled(place, After(place, s, steps), Write(place(k), k, v))
    ensures forall step <- steps :: (step.Send? || step.Unlock?) && step.i == place(k)
    ensures |steps| == if s.lanes[place(k)].producer == Sending then |s.lanes[place(k)].left| + 1 else 0
    decreases |s.lanes[place(k)].left|
  {
    hide Ok, Enabled, Apply;
    var i := place(k);
    if s.lanes[i].producer != Sending {
      WriterFree(place, s, k, v);
      steps := [];
    } else if s.lanes[i].left == map[] {
      UnlockNext(place, s, k, v);
      Preceded(place, s, Step<V>.Unlock(i), []);
      steps := [Step<V>.Unlock(i)] + [];
    } else {
      var j :| j in s.lanes[i].left;
      SendNext(place, s, i, j);
      var later := WriterGetsIn(place, Apply(place, s, Step<V>.Send(i, j)), k, v);
      Preceded(place, s, Step<V>.Send(i, j), later);
      steps := [Step<V>.Send(i, j)] + later;
    }
  }

  lemma ConsumeNext<V>(place: Key -> nat, s: State<V>)
    requires s.out != []
    ensures Enabled(place, s, Step<V>.Consume)
    ensures Apply(place, s, Step<V>.Consume) == s.(out := s.out[1..], consumed := s.consumed + [s.out[0]])
  {
  }

  /** The output can be read to its end at any time, in order, and what was read stays read. */
  lemma {:induction false} CanBeReadOut<V>(place: Key -> nat, s: State<V>) returns (steps: seq<Step<V>>)
    ensures Possible(place, s, steps) && |steps| == |s.out| && forall step <- steps :: step == Step<V>.Consume
    ensures After(place, s, steps) == s.(out := [], consumed := s.consumed + s.out)
    decreases |s.out|
  {
    hide Enabled, Apply;
    if s.out == [] {
      steps := [];
      assert s.consumed + [] == s.consumed;
    } else {
      ConsumeNext(place, s);
      var later := CanBeReadOut(place, Apply(place, s, Step<V>.Consume));
      Preceded(place, s, Step<V>.Consume, later);
      assert s.consumed + [s.out[0]] + s.out[1..] == s.consumed + s.out;
      steps := [Step<V>.Consume] + later;
    }
  }

  /** Steps of the iterator's own goroutines. */
  predicate Internal<V>(step: Step<V>)
  {
    !step.Consume? && !step.Write?
  }

  lemma LaneFacts<V>(place: Key -> nat, s: State<V>, i: nat)
    requires Ok(place, s) && i < |s.lanes|
    ensures s.lanes[i].producer != Sending ==> s.lanes[i].left == map[]
    ensures s.capacity.Some? ==> s.lanes[i].forwarder != Off && s.lanes[i].producer != Idle
  {
    hide From, Lists;
    assert s.lanes[i] in s.lanes && LaneOk(place, i, s.lanes[i], From(place, i, Delivered(s)));
  }

  /** The step that a lane can take next, if any. */
  lemma LaneMoves<V>(place: Key -> nat, s: State<V>, i: nat) returns (step: Step<V>)
    requires Ok(place, s) && i < |s.lanes|
    requires s.lanes[i].producer == Idle || (s.capacity.Some? && s.lanes[i].forwarder != Done)
    ensures Internal(step) && Enabled(place, s, step)
  {
    hide Ok;
    LaneFacts(place, s, i);
    var x := s.lanes[i];
    if x.producer == Idle {
      step := Lock(i);
    } else if x.forwarder.Holding? {
      ForwardNeverBlocks(place, s, i);
      step := Forward(i);
    } else if x.chan != [] {
      step := Receive(i);
    } else if x.producer == Closed {
      step := Finish(i);
    } else if x.producer == Unlocked {
      step := CloseLane(i);
    } else if x.left == map[] {
      step := Unlock(i);
    } else {
      var k :| k in x.left;
      SendNeverBlocks(place, s, i, k);
      step := Send(i, k);
    }
  }

  /** Until the output is closed some goroutine of the iterator can move, whoever writes or reads. */
  lemma NeverStuck<V>(place: Key -> nat, s: State<V>) returns (step: Step<V>)
    requires Ok(place, s) && !s.outClosed
    ensures Internal(step) && Enabled(place, s, step)
  {
    hide LaneOk, From;
    if i :| 0 <= i < |s.lanes| && s.lanes[i].producer == Idle {
      step := LaneMoves(place, s, i);
    } else if s.capacity == None {
      step := Open;
    } else if i :| 0 <= i < |s.lanes| && s.lanes[i].forwarder != Done {
      step := LaneMoves(place, s, i);
    } else {
      step := CloseOut;
    }
  }

  /** A producer that has unlocked closes its channel, whatever still waits there; a forwarder takes what waits. */
  lemma NobodyWaitsInVain<V>(place: Key -> nat, s: State<V>, i: nat)
    requires i < |s.lanes|
    ensures s.lanes[i].producer == Unlocked ==> Enabled(place, s, Step<V>.CloseLane(i))
    ensures s.lanes[i].forwarder == Ready && 0 < |s.lanes[i].chan| ==> Enabled(place, s, Step<V>.Receive(i))
  {
  }

  function IdleCount<V>(lanes: seq<Lane<V>>): nat
  {
    if lanes == [] then 0 else (if lanes[0].producer == Idle then 1 else 0) + IdleCount(lanes[1..])
  }

  function LaneWork<V>(x: Lane<V>): nat
  {
    3 * |x.left| + 2 * |x.chan|
    + (match x.producer case Idle => 3 case Sending => 2 case Unlocked => 1 case Closed => 0)
    + (match x.forwarder case Off => 2 case Ready => 1 case Holding(_) => 2 case Done => 0)
  }

  function Work<V>(lanes: seq<Lane<V>>): nat
  {
    if lanes == [] then 0 else LaneWork(lanes[0]) + Work(lanes[1..])
  }

  /** Steps of the iterator left to take once all snapshots are taken. */
  function WorkLeft<V>(s: State<V>): nat
  {
    Work(s.lanes) + (if s.capacity == None then 1 else 0) + if s.outClosed then 0 else 1
  }

  lemma {:induction false} WorkOfUpdate<V>(lanes: seq<Lane<V>>, i: nat, x: Lane<V>)
    requires i < |lanes|
    ensures Work(lanes[i := x]) == Work(lanes) - LaneWork(lanes[i]) + LaneWork(x)
    ensures IdleCount(lanes[i := x])
         == IdleCount(lanes) - (if lanes[i].producer == Idle then 1 else 0) + if x.producer == Idle then 1 else 0
  {
    hide LaneWork;
    if i == 0 {
      assert lanes[i := x][1..] == lanes[1..];
    } else {
      WorkOfUpdate(lanes[1..], i - 1, x);
      assert lanes[i := x][1..] == lanes[1..][i - 1 := x];
    }
  }

  lemma {:induction false} OpeningKeepsWork<V>(lanes: seq<Lane<V>>, ready: seq<Lane<V>>)
    requires |lanes| == |ready|
    requires forall i :: 0 <= i < |lanes| ==> lanes[i].forwarder == Off && ready[i] == lanes[i].(forwarder := Ready)
    ensures Work(ready) <= Work(lanes) && IdleCount(ready) == IdleCount(lanes)
  {
    if lanes == [] {
    } else {
      OpeningKeepsWork(lanes[1..], ready[1..]);
    }
  }

  lemma LaneWorkShrinks<V>(x: Lane<V>, step: Step<V>)
    requires step.Send? ==> step.k in x.left && x.producer == Sending
    requires step.Receive? ==> x.chan != [] && x.forwarder == Ready
    requires step.Unlock? ==> x.producer == Sending
    requires step.CloseLane? ==> x.producer == Unlocked
    requires step.Forward? ==> x.forwarder.Holding?
    requires step.Finish? ==> x.forwarder == Ready
    requires step.Send? || step.Unlock? || step.CloseLane? || step.Receive? || step.Forward? || step.Finish?
    ensures LaneWork(NextLane(x, step)) < LaneWork(x)
  {
    if step.Send? {
      assert (x.left - {step.k}).Keys == x.left.Keys - {step.k};
      assert |x.left.Keys - {step.k}| == |x.left.Keys| - 1;
    }
  }

  /**
   Every step of the iterator's goroutines brings the end nearer, and reading or writing never
   pushes it away: the output is closed after finitely many of their steps.
   */
  lemma EndComesNearer<V>(place: Key -> nat, s: State<V>, step: Step<V>)
    requires Ok(place, s) && Enabled(place, s, step)
    ensures var t := Apply(place, s, step);
            if Internal(step)
            then IdleCount(t.lanes) < IdleCount(s.lanes)
                 || (IdleCount(t.lanes) == IdleCount(s.lanes) && WorkLeft(t) < WorkLeft(s))
            else IdleCount(t.lanes) == IdleCount(s.lanes) && WorkLeft(t) == WorkLeft(s)
  {
    hide Ok, Work, IdleCount, LaneWork;
    match step
    case Open =>
      OpenComesNearer(place, s);
    case CloseOut =>
    case Consume =>
    case Write(i, k, v) =>
      ReplaceWork(s, i, NextLane(s.lanes[i], step));
      WritingIsNoWork(s.lanes[i], step);
    case Lock(i) =>
      ReplaceWork(s, i, NextLane(s.lanes[i], step));
    case _ =>
      ReplaceWork(s, step.i, NextLane(s.lanes[step.i], step));
      LaneWorkShrinks(s.lanes[step.i], step);
  }

  lemma ReplaceWork<V>(s: State<V>, i: nat, x: Lane<V>)
    requires i < |s.lanes|
    ensures var t := s.(lanes := s.lanes[i := x]);
            && WorkLeft(t) == WorkLeft(s) - LaneWork(s.lanes[i]) + LaneWork(x)
            && IdleCount(t.lanes) == IdleCount(s.lanes) - (if s.lanes[i].producer == Idle then 1 else 0)
                                   + if x.producer == Idle then 1 else 0
  {
    hide LaneWork, Work, IdleCount;
    WorkOfUpdate(s.lanes, i, x);
  }

  lemma OpenComesNearer<V>(place: Key -> nat, s: State<V>)
    requires Ok(place, s) && Enabled(place, s, Step<V>.Open)
    ensures var t := Apply(place, s, Step<V>.Open);
            !s.outClosed && IdleCount(t.lanes) == IdleCount(s.lanes) && WorkLeft(t) < WorkLeft(s)
  {
    hide LaneOk, From, Work, IdleCount, LaneWork;
    OpeningKeepsWork(s.lanes, Apply(place, s, Step<V>.Open).lanes);
  }

  lemma WritingIsNoWork<V>(x: Lane<V>, step: Step<V>)
    requires step.Write?
    ensures LaneWork(NextLane(x, step)) == LaneWork(x)
  {
  }
}
