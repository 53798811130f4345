/**
 Handler slices run by RouterSlicesNext, which handlers may call again, and cut short by Abort.
 The index is an 8-bit signed number: it wraps around, and a negative index panics.
 */
module RouterSlices {
  import opened Options

  type int8 = x: int | -128 <= x < 128

  function Wrap8(x: int): (r: int8)
    ensures -128 <= x < 128 ==> r == x
    ensures 0 <= x ==> r <= x
  {
    (x + 128) % 256 - 128
  }

  /** Wrapping around changes a number by whole turns of 256 only. */
  lemma WholeTurns(x: int)
    ensures (Wrap8(x) - x) % 256 == 0
  {
  }

  /** What a handler does to the request while it runs, in order. */
  datatype Act = CallNext | CallAbort

  type Handler = seq<Act>

  datatype Event = Begin(handler: nat) | Aborted

  /** The request: its index, what happened so far, and whether it panicked. */
  datatype Req = Req(index: int8, events: seq<Event>, panicked: bool)

  /** The loop bound: the number of handlers as an 8-bit number. */
  function Limit(hs: seq<Handler>): (n: int8)
    ensures n <= |hs|
  {
    Wrap8(|hs|)
  }

  /** How many handlers the loop could still start from index `i`. */
  function Ahead(hs: seq<Handler>, i: int): (n: nat)
    ensures n <= |hs|
  {
    if 0 <= i < Limit(hs) then Limit(hs) - i else 0
  }

  /** A request that has run on from another: the log only grew, and a panic is final. */
  predicate Later(before: Req, after: Req)
  {
    before.events <= after.events && (before.panicked ==> after == before)
  }

  function Bump(r: Req): Req
  {
    r.(index := Wrap8(r.index + 1))
  }

  /** RouterSlicesNext. */
  function Next(hs: seq<Handler>, r: Req): (after: Req)
    ensures Later(r, after) && (!after.panicked ==> Limit(hs) <= after.index)
    decreases if r.panicked then 0 else Ahead(hs, r.index + 1), 0, 1
  {
    if r.panicked then r else Loop(hs, Bump(r))
  }

  /** Its loop, from the test on. */
  function Loop(hs: seq<Handler>, r: Req): (after: Req)
    ensures Later(r, after) && (!after.panicked ==> Limit(hs) <= after.index)
    decreases if r.panicked then 0 else Ahead(hs, r.index), 0, 0
  {
    if r.panicked || Limit(hs) <= r.index then
      r
    else if r.index < 0 then
      r.(panicked := true)
    else
      var done := Perform(hs, hs[r.index], r.(events := r.events + [Begin(r.index)]));
      if done.panicked then done else Loop(hs, Bump(done))
  }

  /** A handler's actions. */
  function Perform(hs: seq<Handler>, acts: seq<Act>, r: Req): (after: Req)
    ensures Later(r, after) && (!after.panicked ==> after.index == r.index || Limit(hs) <= after.index)
    decreases if r.panicked then 0 else Ahead(hs, r.index + 1), |acts|, 2
  {
    if acts == [] || r.panicked then
      r
    else
      match acts[0]
      case CallNext => Perform(hs, acts[1..], Next(hs, r))
      case CallAbort => Perform(hs, acts[1..], r.(index := Limit(hs), events := r.events + [Aborted]))
  }

  /** A request as it starts out. */
  const FRESH := Req(-1, [], false)

  // ----- one turn

  lemma NextIsLoop(hs: seq<Handler>, r: Req)
    requires !r.panicked
    ensures Next(hs, r) == Loop(hs, Bump(r))
  {
  }

  /** One turn of the loop. */
  lemma LoopTurn(hs: seq<Handler>, r: Req)
    requires !r.panicked
    ensures Limit(hs) <= r.index ==> Loop(hs, r) == r
    ensures r.index < Limit(hs) && r.index < 0 ==> Loop(hs, r) == r.(panicked := true)
    ensures 0 <= r.index < Limit(hs) ==>
              var done := Perform(hs, hs[r.index], r.(events := r.events + [Begin(r.index)]));
              && (!done.panicked ==> Ahead(hs, Bump(done).index) < Ahead(hs, r.index))
              && Loop(hs, r) == if done.panicked then done else Loop(hs, Bump(done))
  {
    hide Perform;
  }

  // ----- order

  /** Handlers begin in increasing order from `from`, below `limit`, and none after an Abort. */
  predicate Orderly(evs: seq<Event>, from: int, limit: int)
    decreases |evs|
  {
    evs == [] ||
    match evs[0]
    case Begin(h) => from <= h < limit && Orderly(evs[1..], h + 1, limit)
    case Aborted => Orderly(evs[1..], limit, limit)
  }

  /** The least handler that may still begin. */
  function Reached(evs: seq<Event>, from: int, limit: int): int
    decreases |evs|
  {
    if evs == [] then from
    else
      match evs[0]
      case Begin(h) => Reached(evs[1..], h + 1, limit)
      case Aborted => Reached(evs[1..], limit, limit)
  }

  lemma {:induction false} OrderlyConcat(a: seq<Event>, b: seq<Event>, from: int, limit: int)
    ensures Orderly(a + b, from, limit) <==> Orderly(a, from, limit) && Orderly(b, Reached(a, from, limit), limit)
    ensures Reached(a + b, from, limit) == Reached(b, Reached(a, from, limit), limit)
    decreases |a|
  {
    if a == [] {
      assert a + b == b;
    } else {
      assert (a + b)[1..] == a[1..] + b;
      match a[0]
      case Begin(h) => OrderlyConcat(a[1..], b, h + 1, limit);
      case Aborted => OrderlyConcat(a[1..], b, limit, limit);
    }
  }

  lemma OrderlyFromLower(evs: seq<Event>, lower: int, from: int, limit: int)
    requires lower <= from && Orderly(evs, from, limit)
    ensures Orderly(evs, lower, limit) && Reached(evs, lower, limit) <= Reached(evs, from, limit)
  {
    if evs == [] {
    } else if evs[0].Aborted? {
    } else {
      assert Reached(evs, lower, limit) == Reached(evs, from, limit);
    }
  }

  /** What a run added to the log. */
  function New(before: seq<Event>, after: seq<Event>): seq<Event>
    requires before <= after
  {
    after[|before|..]
  }

  /** From `a` on, the log grew in order from `from`, and only handlers from `to` on may begin later. */
  predicate Grew(a: seq<Event>, b: seq<Event>, from: int, to: int, limit: int)
  {
    && a <= b
    && Orderly(New(a, b), from, limit)
    && Reached(New(a, b), from, limit) <= to
  }

  lemma GrewThrough(a: seq<Event>, b: seq<Event>, c: seq<Event>, from: int, mid: int, to: int, limit: int)
    requires Grew(a, b, from, mid, limit) && Grew(b, c, mid, to, limit)
    ensures Grew(a, c, from, to, limit)
  {
    assert New(a, c) == New(a, b) + New(b, c);
    OrderlyConcat(New(a, b), New(b, c), from, limit);
    OrderlyFromLower(New(b, c), Reached(New(a, b), from, limit), mid, limit);
  }

  lemma GrewNothing(a: seq<Event>, from: int, limit: int)
    ensures Grew(a, a, from, from, limit)
  {
    assert New(a, a) == [];
  }

  lemma GrewByBegin(a: seq<Event>, b: seq<Event>, h: nat, limit: int)
    requires b == a + [Begin(h)] && h < limit
    ensures Grew(a, b, h, h + 1, limit)
  {
    assert New(a, b) == [Begin(h)] && [Begin(h)][1..] == [];
  }

  lemma GrewByAbort(a: seq<Event>, b: seq<Event>, from: int, limit: int)
    requires b == a + [Aborted]
    ensures Grew(a, b, from, limit, limit)
  {
    assert New(a, b) == [Aborted] && [Aborted][1..] == [];
  }

  lemma GrewToMore(a: seq<Event>, b: seq<Event>, from: int, to: int, more: int, limit: int)
    requires Grew(a, b, from, to, limit) && to <= more
    ensures Grew(a, b, from, more, limit)
  {
  }

  /** A bound above every index, for when none is needed. */
  const ANY_BOUND := 256

  /** After a panic nothing begins, so any bound will do. */
  function Ceiling(after: Req, to: int): int
  {
    if after.panicked then ANY_BOUND else to
  }

  lemma {:induction false} NextOrderly(hs: seq<Handler>, r: Req)
    requires -1 <= r.index
    ensures var after := Next(hs, r);
            var to := if r.index == 127 then 128 else Ceiling(after, after.index);
            Grew(r.events, after.events, r.index + 1, to, Limit(hs))
    decreases if r.panicked then 0 else Ahead(hs, r.index + 1), 0, 1
  {
    hide Orderly, Reached;
    var after := Next(hs, r);
    if r.panicked || r.index == 127 {
      GrewNothing(r.events, r.index + 1, Limit(hs));
      if r.index != 127 {
        GrewToMore(r.events, after.events, r.index + 1, r.index + 1, ANY_BOUND, Limit(hs));
      }
    } else {
      LoopOrderly(hs, Bump(r));
    }
  }

  lemma {:induction false} LoopOrderly(hs: seq<Handler>, r: Req)
    requires 0 <= r.index
    ensures var after := Loop(hs, r);
            Grew(r.events, after.events, r.index, Ceiling(after, after.index), Limit(hs))
    decreases if r.panicked then 0 else Ahead(hs, r.index), 0, 0
  {
    hide Orderly, Reached, Grew, New;
    var after, limit := Loop(hs, r), Limit(hs);
    if r.panicked || limit <= r.index {
      GrewNothing(r.events, r.index, limit);
      GrewToMore(r.events, after.events, r.index, r.index, Ceiling(after, r.index), limit);
    } else {
      var begun := r.(events := r.events + [Begin(r.index)]);
      var done := Perform(hs, hs[r.index], begun);
      GrewByBegin(r.events, begun.events, r.index, limit);
      PerformOrderly(hs, hs[r.index], begun);
      GrewThrough(r.events, begun.events, done.events, r.index, r.index + 1, Ceiling(done, done.index + 1), limit);
      if !done.panicked {
        if done.index < 127 {
          LoopOrderly(hs, Bump(done));
          GrewThrough(r.events, done.events, after.events, r.index, done.index + 1, Ceiling(after, after.index), limit);
        } else {
          assert Loop(hs, Bump(done)) == Bump(done).(panicked := true);
          GrewNothing(done.events, done.index + 1, limit);
          GrewThrough(r.events, done.events, after.events, r.index, done.index + 1, done.index + 1, limit);
          GrewToMore(r.events, after.events, r.index, done.index + 1, ANY_BOUND, limit);
        }
      }
    }
  }

  lemma {:induction false} PerformOrderly(hs: seq<Handler>, acts: seq<Act>, r: Req)
    requires 0 <= r.index && 0 < Limit(hs)
    ensures var after := Perform(hs, acts, r);
            Grew(r.events, after.events, r.index + 1, Ceiling(after, after.index + 1), Limit(hs))
    decreases if r.panicked then 0 else Ahead(hs, r.index + 1), |acts|, 2
  {
    hide Orderly, Reached, Grew, New;
    var after, limit := Perform(hs, acts, r), Limit(hs);
    if acts == [] || r.panicked {
      GrewNothing(r.events, r.index + 1, limit);
      GrewToMore(r.events, after.events, r.index + 1, r.index + 1, Ceiling(after, r.index + 1), limit);
    } else {
      var mid := AfterAct(hs, acts[0], r);
      ActOrderly(hs, acts, r);
      if !mid.panicked {
        PerformOrderly(hs, acts[1..], mid);
        GrewThrough(
          r.events, mid.events, after.events, r.index + 1, mid.index + 1, Ceiling(after, after.index + 1), limit);
      }
    }
  }

  function AfterAct(hs: seq<Handler>, act: Act, r: Req): Req
  {
    if act == CallNext then Next(hs, r) else r.(index := Limit(hs), events := r.events + [Aborted])
  }

  lemma {:induction false} ActOrderly(hs: seq<Handler>, acts: seq<Act>, r: Req)
    requires 0 <= r.index && 0 < Limit(hs) && acts != [] && !r.panicked
    ensures var mid := AfterAct(hs, acts[0], r);
            Grew(r.events, mid.events, r.index + 1, Ceiling(mid, mid.index + 1), Limit(hs))
    decreases if r.panicked then 0 else Ahead(hs, r.index + 1), |acts|, 1
  {
    hide Orderly, Reached, Grew, New;
    var mid := AfterAct(hs, acts[0], r);
    var limit: int := Limit(hs);
    if acts[0] == CallNext {
      NextOrderly(hs, r);
      assert r.index == 127 ==> mid.panicked;
      GrewToMore(r.events, mid.events, r.index + 1, if r.index == 127 then 128 else Ceiling(mid, mid.index),
                 Ceiling(mid, mid.index + 1), limit);
    } else {
      GrewByAbort(r.events, mid.events, r.index + 1, limit);
      GrewToMore(r.events, mid.events, r.index + 1, limit, limit + 1, limit);
    }
  }

  lemma {:induction false} LaterBegins(evs: seq<Event>, from: int, limit: int, j: nat)
    requires Orderly(evs, from, limit) && j < |evs| && evs[j].Begin?
    ensures from <= evs[j].handler < limit
    decreases |evs|
  {
    if j == 0 {
    } else {
      match evs[0]
      case Begin(h) => LaterBegins(evs[1..], h + 1, limit, j - 1);
      case Aborted => LaterBegins(evs[1..], limit, limit, j - 1);
    }
  }

  lemma {:induction false} OrderlyMeans(evs: seq<Event>, from: int, limit: int, i: nat, j: nat)
    requires Orderly(evs, from, limit) && i < j < |evs| && evs[j].Begin?
    ensures evs[i].Begin? && evs[i].handler < evs[j].handler
    decreases |evs|
  {
    match evs[0]
    case Begin(h) =>
      if i == 0 {
        LaterBegins(evs[1..], h + 1, limit, j - 1);
      } else {
        OrderlyMeans(evs[1..], h + 1, limit, i - 1, j - 1);
      }
    case Aborted =>
      LaterBegins(evs[1..], limit, limit, j - 1);
  }

  /**
   Whatever the handlers do, at any depth: before a handler that begins there are only handlers with
   smaller indices, so each begins at most once and none after an Abort.
   */
  lemma BeginsInOrder(hs: seq<Handler>, i: nat, j: nat)
    requires i < j < |Next(hs, FRESH).events| && Next(hs, FRESH).events[j].Begin?
    ensures var evs := Next(hs, FRESH).events;
            evs[i].Begin? && evs[i].handler < evs[j].handler < |hs|
  {
    var evs := Next(hs, FRESH).events;
    NextOrderly(hs, FRESH);
    assert New([], evs) == evs;
    OrderlyMeans(evs, 0, Limit(hs), i, j);
    LaterBegins(evs, 0, Limit(hs), j);
  }

  // ----- completeness

  predicate NoAborts(hs: seq<Handler>)
  {
    forall h <- hs :: CallAbort !in h
  }

  /** Every handler from `from` to the limit begins, in turn. */
  function AllFrom(from: int, limit: int): (evs: seq<Event>)
    requires 0 <= from
    ensures |evs| == if from < limit then limit - from else 0
    decreases limit - from
  {
    if from < limit then [Begin(from)] + AllFrom(from + 1, limit) else []
  }

  /** The handler before which none begins any more: behind the first that aborts first, or at the limit. */
  function Stop(hs: seq<Handler>, i: nat): (stop: nat)
    requires i <= Limit(hs)
    ensures i <= stop <= Limit(hs)
    decreases Ahead(hs, i)
  {
    if i == Limit(hs) then i
    else if hs[i] != [] && hs[i][0] == CallAbort then i + 1
    else Stop(hs, i + 1)
  }

  function Aborts(acts: seq<Act>): nat
  {
    if acts == [] then 0 else (if acts[0] == CallAbort then 1 else 0) + Aborts(acts[1..])
  }

  /** How often the handlers that begin from `i` on abort between them. */
  function AbortsFrom(hs: seq<Handler>, i: nat): nat
    requires i <= Limit(hs)
    decreases Ahead(hs, i)
  {
    if i == Limit(hs) then 0
    else Aborts(hs[i]) + if hs[i] != [] && hs[i][0] == CallAbort then 0 else AbortsFrom(hs, i + 1)
  }

  /** What happened is `log` and then Aborts only: `aborts` of them, or fewer if the request panicked. */
  predicate Logged(after: Req, log: seq<Event>, aborts: nat)
  {
    && log <= after.events
    && (forall j :: |log| <= j < |after.events| ==> after.events[j] == Aborted)
    && |after.events| <= |log| + aborts
    && (!after.panicked ==> |after.events| == |log| + aborts)
  }

  /** Past the limit nothing begins. */
  lemma {:induction false} PerformLogs(hs: seq<Handler>, acts: seq<Act>, r: Req, log: seq<Event>, n: nat)
    requires 0 < Limit(hs) && (r.panicked || Limit(hs) <= r.index) && Logged(r, log, n)
    ensures Logged(Perform(hs, acts, r), log, n + Aborts(acts))
    decreases |acts|
  {
    hide Next, Loop;
    if acts == [] || r.panicked {
    } else if acts[0] == CallAbort {
      PerformLogs(hs, acts[1..], r.(index := Limit(hs), events := r.events + [Aborted]), log, n + 1);
    } else {
      NextIsLoop(hs, r);
      LoopTurn(hs, Bump(r));
      PerformLogs(hs, acts[1..], Next(hs, r), log, n);
    }
  }

  /** Nor does anything happen when the loops end. */
  lemma EndLogs(hs: seq<Handler>, done: Req, log: seq<Event>, n: nat)
    requires 0 < Limit(hs) && (done.panicked || Limit(hs) <= done.index) && Logged(done, log, n)
    ensures Logged(if done.panicked then done else Loop(hs, Bump(done)), log, n)
  {
    hide Loop;
    if !done.panicked {
      LoopTurn(hs, Bump(done));
    }
  }

  /** What handler `i` adds to the log. */
  lemma LogStep(hs: seq<Handler>, i: nat)
    requires i < Limit(hs)
    ensures var acts := hs[i];
            if acts == [] then
              Stop(hs, i) == Stop(hs, i + 1) && AbortsFrom(hs, i) == AbortsFrom(hs, i + 1)
            else if acts[0] == CallNext then
              Stop(hs, i) == Stop(hs, i + 1) && AbortsFrom(hs, i) == AbortsFrom(hs, i + 1) + Aborts(acts[1..])
            else
              Stop(hs, i) == i + 1 && AbortsFrom(hs, i) == 1 + Aborts(acts[1..])
    ensures AllFrom(i, Stop(hs, i)) == [Begin(i)] + AllFrom(i + 1, Stop(hs, i))
  {
  }

  lemma LoggedSoFar(r: Req, log: seq<Event>)
    requires r.events == log
    ensures Logged(r, log, 0)
    ensures Logged(r.(events := r.events + [Aborted]), log, 1)
  {
  }

  lemma LogsFirst(hs: seq<Handler>, begun: Req)
    requires 0 <= begun.index < Limit(hs) && !begun.panicked && hs[begun.index] != []
    ensures var acts := hs[begun.index];
            var mid := AfterAct(hs, acts[0], begun);
            && Perform(hs, acts, begun) == Perform(hs, acts[1..], mid)
            && (mid.panicked || Limit(hs) <= mid.index)
  {
    hide Next;
  }

  lemma {:induction false} LoopLogs(hs: seq<Handler>, r: Req)
    requires 0 < Limit(hs) && 0 <= r.index <= Limit(hs) && !r.panicked
    ensures Logged(Loop(hs, r), r.events + AllFrom(r.index, Stop(hs, r.index)), AbortsFrom(hs, r.index))
    decreases Ahead(hs, r.index)
  {
    hide Loop, Next, Perform, Logged;
    LoopTurn(hs, r);
    if r.index == Limit(hs) {
      assert r.events + AllFrom(r.index, Stop(hs, r.index)) == r.events;
      LoggedSoFar(r, r.events);
    } else {
      var i, acts, begun := r.index, hs[r.index], r.(events := r.events + [Begin(r.index)]);
      LogStep(hs, i);
      hide Stop, AbortsFrom, AllFrom, Aborts;
      var log := r.events + AllFrom(i, Stop(hs, i));
      assert log == begun.events + AllFrom(i + 1, Stop(hs, i));
      if acts == [] {
        PerformNothing(hs, begun);
        LoopLogs(hs, Bump(begun));
      } else {
        LogsFirst(hs, begun);
        var mid := AfterAct(hs, acts[0], begun);
        if acts[0] == CallNext {
          NextIsLoop(hs, begun);
          LoopLogs(hs, Bump(begun));
          PerformLogs(hs, acts[1..], mid, log, AbortsFrom(hs, i + 1));
        } else {
          NoneFrom(i + 1);
          assert log == begun.events;
          LoggedSoFar(begun.(index := Limit(hs)), log);
          PerformLogs(hs, acts[1..], mid, log, 1);
        }
        EndLogs(hs, Perform(hs, acts, begun), log, AbortsFrom(hs, i));
      }
    }
  }

  lemma PerformNothing(hs: seq<Handler>, r: Req)
    ensures Perform(hs, [], r) == r
  {
  }

  lemma NoneFrom(i: nat)
    ensures AllFrom(i, i) == []
  {
  }

  /**
   What happens, whatever the handlers do: the handlers up to the first that aborts before anything
   else begin, in turn; after that there are only Aborts, all that those handlers make unless the
   index wraps around before.
   */
  lemma LogExactly(hs: seq<Handler>)
    ensures Limit(hs) <= 0 ==> Next(hs, FRESH).events == []
    ensures 0 < Limit(hs) ==> Logged(Next(hs, FRESH), AllFrom(0, Stop(hs, 0)), AbortsFrom(hs, 0))
  {
    if 0 < Limit(hs) {
      LoopLogs(hs, Bump(FRESH));
      assert [] + AllFrom(0, Stop(hs, 0)) == AllFrom(0, Stop(hs, 0));
    }
  }

  lemma {:induction false} NoAbort(acts: seq<Act>)
    requires CallAbort !in acts
    ensures Aborts(acts) == 0
  {
    if acts == [] {
    } else {
      NoAbort(acts[1..]);
    }
  }

  lemma {:induction false} NoAbortNoStop(hs: seq<Handler>, i: nat)
    requires NoAborts(hs) && i <= Limit(hs)
    ensures Stop(hs, i) == Limit(hs) && AbortsFrom(hs, i) == 0
    decreases Ahead(hs, i)
  {
    if i == Limit(hs) {
    } else {
      assert hs[i] in hs;
      NoAbort(hs[i]);
      NoAbortNoStop(hs, i + 1);
    }
  }

  /**
   When nobody aborts, every handler below the limit runs, once, in order, even if the index wraps
   around on the way out; that is every handler exactly when there are fewer than 128.
   */
  lemma AllRunWithoutAbort(hs: seq<Handler>)
    requires NoAborts(hs)
    ensures Next(hs, FRESH).events == AllFrom(0, Limit(hs))
    ensures |Next(hs, FRESH).events| == |hs| <==> |hs| < 128
  {
    LogExactly(hs);
    if 0 < Limit(hs) {
      NoAbortNoStop(hs, 0);
    }
  }

  // ----- the eight-bit index

  function Nexts(acts: seq<Act>): nat
  {
    if acts == [] then 0 else (if acts[0] == CallNext then 1 else 0) + Nexts(acts[1..])
  }

  /**
   What happens from when the last handler has begun until the run is over, in order, the end of a
   handler being one step of the index like a call of Next: what the handlers still have to do, the
   latest first. A handler that calls Next first waits for the later ones; one that aborts first
   lets none begin.
   */
  function Unwinding(hs: seq<Handler>, i: nat): seq<Act>
    decreases Ahead(hs, i)
  {
    if Limit(hs) <= i then []
    else if hs[i] == [] then Unwinding(hs, i + 1)
    else (if hs[i][0] == CallNext then Unwinding(hs, i + 1) else []) + hs[i][1..] + [CallNext]
  }

  /** Where the index comes to from `x`: a step up for each Next, back to the limit for each Abort. */
  function Walk(limit: int, x: int, acts: seq<Act>): Option<int>
    decreases |acts|
  {
    if acts == [] then Some(x)
    else if acts[0] == CallAbort then Walk(limit, limit, acts[1..])
    else if x < 127 then Walk(limit, x + 1, acts[1..])
    else None
  }

  lemma {:induction false} WalkConcat(limit: int, x: int, a: seq<Act>, b: seq<Act>)
    ensures Walk(limit, x, a + b)
         == match Walk(limit, x, a) case None => None case Some(y) => Walk(limit, y, b)
    decreases |a|
  {
    if a == [] {
      assert a + b == b;
    } else {
      assert (a + b)[1..] == a[1..] + b;
      WalkConcat(limit, if a[0] == CallAbort then limit else x + 1, a[1..], b);
    }
  }

  /** The index stands where the walk ended, at the limit or beyond, or the request panicked where the walk failed. */
  predicate Walked(hs: seq<Handler>, after: Req, to: Option<int>)
  {
    match to
    case None => after.panicked
    case Some(x) => !after.panicked && after.index == x && Limit(hs) <= x
  }

  /** Past the limit no handler begins and only the index moves. */
  lemma {:induction false} PerformWalks(hs: seq<Handler>, acts: seq<Act>, r: Req)
    requires 0 < Limit(hs) <= r.index && !r.panicked
    ensures Walked(hs, Perform(hs, acts, r), Walk(Limit(hs), r.index, acts))
    decreases |acts|
  {
    hide Next, Loop;
    if acts == [] {
    } else if acts[0] == CallAbort {
      PerformWalks(hs, acts[1..], r.(index := Limit(hs), events := r.events + [Aborted]));
    } else {
      NextIsLoop(hs, r);
      LoopTurn(hs, Bump(r));
      assert Perform(hs, acts, r) == Perform(hs, acts[1..], Next(hs, r));
      if r.index < 127 {
        PerformWalks(hs, acts[1..], Bump(r));
      } else {
        assert Perform(hs, acts[1..], Next(hs, r)) == Next(hs, r);
      }
    }
  }

  /** A handler's actions from an index where the rest of them find every later handler begun or shut out. */
  lemma RestWalks(hs: seq<Handler>, acts: seq<Act>, r: Req, sofar: seq<Act>)
    requires 0 < Limit(hs) && Walked(hs, r, Walk(Limit(hs), Limit(hs), sofar))
    ensures Walked(hs, Perform(hs, acts, r), Walk(Limit(hs), Limit(hs), sofar + acts))
  {
    hide Next;
    WalkConcat(Limit(hs), Limit(hs), sofar, acts);
    if !r.panicked {
      PerformWalks(hs, acts, r);
    }
  }

  /** The end of a handler, and of the loop that ran it. */
  lemma EndWalks(hs: seq<Handler>, done: Req, sofar: seq<Act>)
    requires 0 < Limit(hs) && Walked(hs, done, Walk(Limit(hs), Limit(hs), sofar))
    ensures var after := if done.panicked then done else Loop(hs, Bump(done));
            Walked(hs, after, Walk(Limit(hs), Limit(hs), sofar + [CallNext]))
  {
    hide Loop;
    WalkConcat(Limit(hs), Limit(hs), sofar, [CallNext]);
    assert [CallNext][1..] == [];
    if !done.panicked {
      LoopTurn(hs, Bump(done));
    }
  }

  lemma {:induction false} LoopWalks(hs: seq<Handler>, r: Req)
    requires 0 < Limit(hs) && 0 <= r.index <= Limit(hs) && !r.panicked
    ensures Walked(hs, Loop(hs, r), Walk(Limit(hs), Limit(hs), Unwinding(hs, r.index)))
    decreases Ahead(hs, r.index)
  {
    hide Loop, Next, Walk, Walked;
    LoopTurn(hs, r);
    if Limit(hs) == r.index {
      NoWalk(hs, r);
    } else {
      var acts, begun := hs[r.index], r.(events := r.events + [Begin(r.index)]);
      if acts == [] {
        LoopWalks(hs, Bump(begun));
      } else {
        var mid := AfterAct(hs, acts[0], begun);
        var sofar := if acts[0] == CallNext then Unwinding(hs, r.index + 1) else [];
        if acts[0] == CallNext {
          NextIsLoop(hs, begun);
          LoopWalks(hs, Bump(begun));
        } else {
          NoWalk(hs, mid);
        }
        RestWalks(hs, acts[1..], mid, sofar);
        EndWalks(hs, Perform(hs, acts, begun), sofar + acts[1..]);
      }
    }
  }

  lemma NoWalk(hs: seq<Handler>, r: Req)
    requires r.index == Limit(hs) && !r.panicked
    ensures Walked(hs, r, Walk(Limit(hs), Limit(hs), []))
  {
  }

  /**
   Whatever the handlers do, the index wraps around, which panics, exactly when the walk through the
   unwinding goes beyond 127 from the limit; otherwise it ends where that walk ends.
   */
  lemma WrapsExactly(hs: seq<Handler>)
    ensures var after, to := Next(hs, FRESH), Walk(Limit(hs), Limit(hs), Unwinding(hs, 0));
            && (after.panicked <==> 0 < Limit(hs) && to == None)
            && (!after.panicked ==> after.index == if 0 < Limit(hs) then to.value else 0)
  {
    if 0 < Limit(hs) {
      LoopWalks(hs, Bump(FRESH));
    }
  }

  /** How often the handlers from `i` to the limit call Next between them. */
  function NextsFrom(hs: seq<Handler>, i: nat): nat
    decreases Ahead(hs, i)
  {
    if i < Limit(hs) then Nexts(hs[i]) + NextsFrom(hs, i + 1) else 0
  }

  lemma {:induction false} NextsConcat(a: seq<Act>, b: seq<Act>)
    ensures Nexts(a + b) == Nexts(a) + Nexts(b)
    decreases |a|
  {
    if a == [] {
      assert a + b == b;
    } else {
      assert (a + b)[1..] == a[1..] + b;
      NextsConcat(a[1..], b);
    }
  }

  /** The unwinding calls Next as often as the handlers do, and once more when one of them aborts first. */
  lemma {:induction false} NextsOfUnwinding(hs: seq<Handler>, i: nat)
    ensures Nexts(Unwinding(hs, i)) <= NextsFrom(hs, i) + 1
    ensures NoAborts(hs) ==> Nexts(Unwinding(hs, i)) == NextsFrom(hs, i) && CallAbort !in Unwinding(hs, i)
    decreases Ahead(hs, i)
  {
    if Limit(hs) <= i {
    } else {
      NextsOfUnwinding(hs, i + 1);
      assert hs[i] in hs;
      if hs[i] != [] {
        var first := if hs[i][0] == CallNext then Unwinding(hs, i + 1) else [];
        NextsConcat(first, hs[i][1..]);
        NextsConcat(first + hs[i][1..], [CallNext]);
        assert [CallNext][1..] == [];
      }
    }
  }

  /** A walk never gets further than its calls of Next, and exactly as far when nothing aborts. */
  lemma {:induction false} WalkBound(limit: int, x: int, acts: seq<Act>)
    requires limit <= x <= 127
    ensures x + Nexts(acts) <= 127 ==> Walk(limit, x, acts).Some? && Walk(limit, x, acts).value <= x + Nexts(acts)
    ensures CallAbort !in acts ==>
              Walk(limit, x, acts) == if x + Nexts(acts) <= 127 then Some(x + Nexts(acts)) else None
    decreases |acts|
  {
    if acts == [] {
    } else if acts[0] == CallAbort {
      WalkBound(limit, limit, acts[1..]);
    } else if x < 127 {
      WalkBound(limit, x + 1, acts[1..]);
    }
  }

  /**
   When nobody aborts, the index wraps around exactly when handlers and calls of Next together are
   more than 127; short of that it ends at their sum.
   */
  lemma WrapsExactlyWithoutAbort(hs: seq<Handler>)
    requires NoAborts(hs)
    ensures Next(hs, FRESH).panicked <==> 0 < Limit(hs) && 127 < Limit(hs) + NextsFrom(hs, 0)
    ensures !Next(hs, FRESH).panicked && 0 < Limit(hs) ==> Next(hs, FRESH).index == Limit(hs) + NextsFrom(hs, 0)
  {
    WrapsExactly(hs);
    NextsOfUnwinding(hs, 0);
    WalkBound(Limit(hs), Limit(hs), Unwinding(hs, 0));
  }

  /** Handlers that may abort never make the index wrap around when there is room for one step more. */
  lemma IndexBounded(hs: seq<Handler>)
    requires 0 < Limit(hs) ==> Limit(hs) + NextsFrom(hs, 0) < 127
    ensures !Next(hs, FRESH).panicked
    ensures 0 < Limit(hs) ==> Next(hs, FRESH).index <= Limit(hs) + NextsFrom(hs, 0) + 1
  {
    WrapsExactly(hs);
    NextsOfUnwinding(hs, 0);
    WalkBound(Limit(hs), Limit(hs), Unwinding(hs, 0));
  }

  predicate OneNextEach(hs: seq<Handler>)
  {
    forall h <- hs :: Nexts(h) <= 1
  }

  lemma {:induction false} OneNextEachAdds(hs: seq<Handler>, i: nat)
    requires OneNextEach(hs)
    ensures NextsFrom(hs, i) <= Ahead(hs, i)
    decreases Ahead(hs, i)
  {
    if Limit(hs) <= i {
    } else {
      assert hs[i] in hs;
      OneNextEachAdds(hs, i + 1);
    }
  }

  /** With at most 63 handlers that call Next at most once each, aborting or not, the index never wraps around. */
  lemma IndexNeverWraps(hs: seq<Handler>)
    requires OneNextEach(hs) && |hs| <= 63
    ensures !Next(hs, FRESH).panicked && Next(hs, FRESH).index <= 2 * |hs| + 1
  {
    OneNextEachAdds(hs, 0);
    IndexBounded(hs);
  }

  function Chained(n: nat): seq<Handler>
  {
    seq(n, _ => [CallNext])
  }

  lemma {:induction false} ChainedNexts(n: nat, i: nat)
    requires i <= n < 128
    ensures NextsFrom(Chained(n), i) == n - i
    decreases n - i
  {
    if i == n {
    } else {
      assert Chained(n)[i] == [CallNext] && [CallNext][1..] == [];
      ChainedNexts(n, i + 1);
    }
  }

  /** Sixty-three is the most: handlers that each call Next once make the index wrap from sixty-four on. */
  lemma ChainedWrapExactly(n: nat)
    requires n < 128
    ensures OneNextEach(Chained(n))
    ensures Next(Chained(n), FRESH).panicked <==> 63 < n
  {
    assert [CallNext][1..] == [];
    ChainedNexts(n, 0);
    WrapsExactlyWithoutAbort(Chained(n));
  }

  // ----- the request object

  class Request {
    var handlers: seq<Handler>
    var index: int8
    var panicked: bool
    ghost var events: seq<Event>

    ghost function State(): Req
      reads this
    {
      Req(index, events, panicked)
    }

    constructor ()
      ensures State() == FRESH && handlers == []
    {
      handlers, index, panicked, events := [], -1, false, [];
    }

    method BindRouterSlices(handlers: seq<Handler>)
      modifies this
      ensures this.handlers == handlers && State() == old(State())
    {
      this.handlers := handlers;
    }

    method Abort()
      modifies this
      ensures handlers == old(handlers)
      ensures State() == old(State()).(index := Limit(handlers), events := old(events) + [Aborted])
    {
      index := Wrap8(|handlers|);
      events := events + [Aborted];
    }

    /** Runs the handlers from the next one on; a panic unwinds every call at once. */
    method RouterSlicesNext()
      requires !panicked
      modifies this
      ensures handlers == old(handlers) && State() == Next(handlers, old(State()))
      decreases Ahead(handlers, index + 1), 0, 1
    {
      hide Perform, Next, Loop;
      NextIsLoop(handlers, State());
      index := Wrap8(index + 1);
      ghost var goal := Loop(handlers, State());
      while index < Wrap8(|handlers|)
        invariant handlers == old(handlers) && !panicked
        invariant Loop(handlers, State()) == goal
        invariant Ahead(handlers, index) <= Ahead(old(handlers), old(index) + 1)
        decreases Ahead(handlers, index)
      {
        LoopTurn(handlers, State());
        if index < 0 {
          panicked := true;
          return;
        }
        events := events + [Begin(index)];
        Handle(handlers[index]);
        if panicked {
          return;
        }
        index := Wrap8(index + 1);
      }
      LoopTurn(handlers, State());
    }

    /** A handler's body. */
    method Handle(acts: seq<Act>)
      requires !panicked
      modifies this
      ensures handlers == old(handlers) && State() == Perform(handlers, acts, old(State()))
      decreases Ahead(handlers, index + 1), |acts|, 2
    {
      if acts == [] {
        return;
      }
      match acts[0]
      case CallNext =>
        RouterSlicesNext();
        if !panicked {
          Handle(acts[1..]);
        }
      case CallAbort =>
        Abort();
        Handle(acts[1..]);
    }
  }
}
