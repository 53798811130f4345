/**
 The accept loop of a TCP server and the connection registry, as interleaved atomic steps: the
 registry is counted shard by shard, one lock at a time, while finished connections remove
 themselves; only the accept loop adds. Ids stand for their decimal strings, the registry's keys.
 */
module Acceptor {

  type ConnId = nat

  const SHARDS: nat := 32
  const ID_LIMIT: nat := 0x1_0000_0000_0000_0000

  /** Where the accept loop is: counting with a sum so far, or waiting for a peer to connect. */
  datatype Loop = Counting(next: nat, sum: nat) | Accepting

  /** `live` maps each connection accepted and not yet removed, by order of acceptance, to its id. */
  datatype State = State(shards: seq<set<ConnId>>, counter: nat, accepted: nat, live: map<nat, ConnId>, loop: Loop)

  datatype Step =
    | CountShard
    | Wait
    | Go
    | Fail
    | Register
    | Remove(conn: nat)

  function Init(): State
  {
    State(seq(SHARDS, _ => {}), 0, 0, map[], Counting(0, 0))
  }

  predicate Enabled(maxConn: int, s: State, step: Step)
  {
    match step
    case CountShard => s.loop.Counting? && s.loop.next < |s.shards|
    case Wait => s.loop.Counting? && s.loop.next == |s.shards| && maxConn <= s.loop.sum
    case Go => s.loop.Counting? && s.loop.next == |s.shards| && s.loop.sum < maxConn
    case Fail => s.loop == Accepting
    case Register => s.loop == Accepting
    case Remove(c) => c in s.live
  }

  /** The shard of an id, whatever the hash. */
  function Shard(hash: ConnId -> nat, id: ConnId): (i: nat)
    ensures i < SHARDS
  {
    hash(id) % SHARDS
  }

  /** The counter's next value, a 64-bit sum. */
  function NextId(s: State): ConnId
  {
    (s.counter + 1) % ID_LIMIT
  }

  function Added(s: State, i: nat, id: ConnId): State
    requires i < |s.shards|
  {
    s.(shards := s.shards[i := s.shards[i] + {id}], counter := id, accepted := s.accepted + 1,
       live := s.live[s.accepted := id], loop := Counting(0, 0))
  }

  function Removed(s: State, i: nat, c: nat): State
    requires i < |s.shards| && c in s.live
  {
    s.(shards := s.shards[i := s.shards[i] - {s.live[c]}], live := s.live - {c})
  }

  function Apply(hash: ConnId -> nat, maxConn: int, s: State, step: Step): State
    requires |s.shards| == SHARDS && Enabled(maxConn, s, step)
  {
    match step
    case CountShard => s.(loop := Counting(s.loop.next + 1, s.loop.sum + |s.shards[s.loop.next]|))
    case Wait => s.(loop := Counting(0, 0))
    case Go => s.(loop := Accepting)
    case Fail => s.(loop := Counting(0, 0))
    case Register => Added(s, Shard(hash, NextId(s)), NextId(s))
    case Remove(c) => Removed(s, Shard(hash, s.live[c]), c)
  }

  function Total(shards: seq<set<ConnId>>): nat
  {
    if shards == [] then 0 else |shards[0]| + Total(shards[1..])
  }

  lemma {:induction false} TotalUpdate(shards: seq<set<ConnId>>, i: nat, ids: set<ConnId>)
    requires i < |shards|
    ensures Total(shards[i := ids]) == Total(shards) - |shards[i]| + |ids|
  {
    if i == 0 {
      assert shards[i := ids][1..] == shards[1..];
    } else {
      TotalUpdate(shards[1..], i - 1, ids);
      assert shards[i := ids][1..] == shards[1..][i - 1 := ids];
    }
  }

  lemma {:induction false} TotalPrefix(shards: seq<set<ConnId>>, n: nat)
    requires n < |shards|
    ensures Total(shards[..n + 1]) == Total(shards[..n]) + |shards[n]|
  {
    if n == 0 {
      assert shards[..1][1..] == [] && shards[..0] == [];
    } else {
      TotalPrefix(shards[1..], n - 1);
      assert shards[..n + 1][1..] == shards[1..][..n] && shards[..n][1..] == shards[1..][..n - 1];
    }
  }

  /** How many connections may be registered. */
  function Allowed(maxConn: int): nat
  {
    if maxConn > 0 then maxConn else 0
  }

  /** Every live connection is registered, in the shard of its id. */
  predicate LiveRegistered(hash: ConnId -> nat, shards: seq<set<ConnId>>, live: map<nat, ConnId>)
    requires |shards| == SHARDS
  {
    forall c <- live :: live[c] in shards[Shard(hash, live[c])]
  }

  predicate Numbered(live: map<nat, ConnId>, accepted: nat)
  {
    forall c <- live :: c < accepted
  }

  predicate OwnIds(live: map<nat, ConnId>)
  {
    forall c, d :: c in live && d in live && c != d ==> live[c] != live[d]
  }

  predicate ShardInPlace(hash: ConnId -> nat, i: nat, ids: set<ConnId>, counter: nat)
  {
    forall id <- ids :: Shard(hash, id) == i && id <= counter
  }

  /** Ids are where they belong and none is above the counter. */
  predicate IdsInPlace(hash: ConnId -> nat, shards: seq<set<ConnId>>, counter: nat)
    requires |shards| == SHARDS
  {
    forall i :: 0 <= i < SHARDS ==> ShardInPlace(hash, i, shards[i], counter)
  }

  /** Until the counter wraps, the registry holds exactly the live connections, under ids of their own. */
  predicate Registry(hash: ConnId -> nat, s: State)
  {
    && |s.shards| == SHARDS
    && s.counter == s.accepted
    && Numbered(s.live, s.accepted)
    && LiveRegistered(hash, s.shards, s.live)
    && OwnIds(s.live)
    && IdsInPlace(hash, s.shards, s.counter)
    && |s.live| == Total(s.shards)
  }

  /**
   What the loop knows: the shards counted so far hold no more than its sum, and when it has
   decided to accept there is room for one more.
   */
  predicate Room(maxConn: int, s: State)
  {
    && Total(s.shards) <= Allowed(maxConn)
    && match s.loop
       case Counting(next, sum) => next <= |s.shards| && Total(s.shards[..next]) <= sum
       case Accepting => Total(s.shards) < Allowed(maxConn)
  }

  lemma {:induction false} NoneRegistered(shards: seq<set<ConnId>>)
    requires forall i :: 0 <= i < |shards| ==> shards[i] == {}
    ensures Total(shards) == 0
  {
    if shards == [] {
    } else {
      NoneRegistered(shards[1..]);
    }
  }

  lemma InitOk(hash: ConnId -> nat, maxConn: int)
    ensures Registry(hash, Init()) && Room(maxConn, Init()) && Init().accepted == 0
  {
    hide Shard, Total;
    NoneRegistered(Init().shards);
    NoShardsCounted(Init().shards);
  }

  lemma AddedKeepsRegistry(hash: ConnId -> nat, s: State, i: nat, id: ConnId)
    requires Registry(hash, s) && id == s.accepted + 1 && i == Shard(hash, id)
    ensures Registry(hash, Added(s, i, id)) && Total(Added(s, i, id).shards) == Total(s.shards) + 1
  {
    hide Shard, Total, LiveRegistered, OwnIds, IdsInPlace, Numbered;
    AddedInPlace(hash, s.shards, s.live, s.accepted, id);
    OneMore(s.live, s.accepted, id);
    TotalOneMore(s.shards, i, id);
  }

  lemma TotalOneMore(shards: seq<set<ConnId>>, i: nat, id: ConnId)
    requires i < |shards| && id !in shards[i]
    ensures Total(shards[i := shards[i] + {id}]) == Total(shards) + 1
  {
    hide Total;
    TotalUpdate(shards, i, shards[i] + {id});
  }

  lemma TotalOneLess(shards: seq<set<ConnId>>, i: nat, id: ConnId)
    requires i < |shards| && id in shards[i]
    ensures Total(shards[i := shards[i] - {id}]) == Total(shards) - 1
  {
    hide Total;
    TotalUpdate(shards, i, shards[i] - {id});
  }

  lemma AddedInPlace(hash: ConnId -> nat, shards: seq<set<ConnId>>, live: map<nat, ConnId>, c: nat, id: ConnId)
    requires |shards| == SHARDS && LiveRegistered(hash, shards, live) && OwnIds(live) && IdsInPlace(hash, shards, c)
    requires id == c + 1
    ensures var i := Shard(hash, id);
            && id !in shards[i]
            && LiveRegistered(hash, shards[i := shards[i] + {id}], live[c := id])
            && OwnIds(live[c := id])
            && IdsInPlace(hash, shards[i := shards[i] + {id}], id)
  {
    hide Shard;
    forall d | d in live
      ensures live[d] != id
    {
      assert live[d] in shards[Shard(hash, live[d])];
      assert ShardInPlace(hash, Shard(hash, live[d]), shards[Shard(hash, live[d])], c);
    }
    var i := Shard(hash, id);
    assert ShardInPlace(hash, i, shards[i], c);
    var shards' := shards[i := shards[i] + {id}];
    forall j | 0 <= j < SHARDS
      ensures ShardInPlace(hash, j, shards'[j], id)
    {
      assert ShardInPlace(hash, j, shards[j], c);
    }
  }

  lemma RemovedKeepsRegistry(hash: ConnId -> nat, s: State, c: nat)
    requires Registry(hash, s) && c in s.live
    ensures var t := Removed(s, Shard(hash, s.live[c]), c);
            && Registry(hash, t)
            && Total(t.shards) == Total(s.shards) - 1
            && forall i :: 0 <= i < SHARDS ==> t.shards[i] <= s.shards[i]
  {
    assert s.live[c] in s.shards[Shard(hash, s.live[c])];
    hide Shard, Total, LiveRegistered, OwnIds, IdsInPlace, Numbered;
    var i := Shard(hash, s.live[c]);
    RemovedInPlace(hash, s.shards, s.live, c, s.counter);
    TotalOneLess(s.shards, i, s.live[c]);
    OneLess(s.live, c);
  }

  lemma OneMore(live: map<nat, ConnId>, c: nat, id: ConnId)
    requires Numbered(live, c)
    ensures |live[c := id]| == |live| + 1 && Numbered(live[c := id], c + 1)
  {
    assert live[c := id].Keys == live.Keys + {c};
  }

  lemma OneLess(live: map<nat, ConnId>, c: nat)
    requires c in live
    ensures |live - {c}| == |live| - 1 && forall n :: Numbered(live, n) ==> Numbered(live - {c}, n)
  {
    assert (live - {c}).Keys == live.Keys - {c};
    assert |live.Keys - {c}| == |live.Keys| - 1;
  }

  lemma RemovedInPlace(hash: ConnId -> nat, shards: seq<set<ConnId>>, live: map<nat, ConnId>, c: nat, counter: nat)
    requires |shards| == SHARDS && LiveRegistered(hash, shards, live) && OwnIds(live)
    requires IdsInPlace(hash, shards, counter)
    requires c in live
    ensures var i := Shard(hash, live[c]);
            && LiveRegistered(hash, shards[i := shards[i] - {live[c]}], live - {c})
            && OwnIds(live - {c})
            && IdsInPlace(hash, shards[i := shards[i] - {live[c]}], counter)
  {
    hide Shard;
    var i := Shard(hash, live[c]);
    var shards' := shards[i := shards[i] - {live[c]}];
    forall j | 0 <= j < SHARDS
      ensures ShardInPlace(hash, j, shards'[j], counter)
    {
      assert ShardInPlace(hash, j, shards[j], counter);
    }
  }

  lemma {:induction false} SmallerPrefix(a: seq<set<ConnId>>, b: seq<set<ConnId>>, n: nat)
    requires n <= |a| == |b| && forall i :: 0 <= i < |a| ==> b[i] <= a[i]
    ensures Total(b[..n]) <= Total(a[..n])
  {
    if n == 0 {
    } else {
      SmallerPrefix(a[1..], b[1..], n - 1);
      assert a[..n][1..] == a[1..][..n - 1] && b[..n][1..] == b[1..][..n - 1];
      Smaller(a[0], b[0]);
    }
  }

  lemma Smaller(a: set<ConnId>, b: set<ConnId>)
    requires b <= a
    ensures |b| <= |a|
  {
    assert |a| == |b| + |a - b| by {
      assert a == b + (a - b);
    }
  }

  /** Every step keeps both, as long as a connection to be registered finds an id unused. */
  lemma StepOk(hash: ConnId -> nat, maxConn: int, s: State, step: Step)
    requires Registry(hash, s) && Room(maxConn, s) && Enabled(maxConn, s, step)
    requires step == Register ==> s.accepted + 1 < ID_LIMIT
    ensures var t := Apply(hash, maxConn, s, step);
            Registry(hash, t) && Room(maxConn, t)
  {
    assert |s.shards| == SHARDS;
    hide Total, Shard, Registry, Room, Added, Removed;
    match step
    case CountShard => CountKeeps(hash, maxConn, s);
    case Register => RegisterKeeps(hash, maxConn, s);
    case Remove(c) => RemoveKeeps(hash, maxConn, s, c);
    case Go => GoKeeps(hash, maxConn, s);
    case Wait => RestartKeeps(hash, maxConn, s);
    case Fail => RestartKeeps(hash, maxConn, s);
  }

  lemma RegisterKeeps(hash: ConnId -> nat, maxConn: int, s: State)
    requires Registry(hash, s) && Room(maxConn, s) && s.loop == Accepting && s.accepted + 1 < ID_LIMIT
    ensures var t := Added(s, Shard(hash, NextId(s)), NextId(s));
            Registry(hash, t) && Room(maxConn, t) && t.accepted == s.accepted + 1
  {
    hide Total, Shard, LiveRegistered, OwnIds, IdsInPlace, Numbered;
    NextIdIsNew(s);
    AddedKeepsRegistry(hash, s, Shard(hash, s.accepted + 1), s.accepted + 1);
    NoShardsCounted(Added(s, Shard(hash, s.accepted + 1), s.accepted + 1).shards);
  }

  lemma NextIdIsNew(s: State)
    requires s.counter == s.accepted && s.accepted + 1 < ID_LIMIT
    ensures NextId(s) == s.accepted + 1
  {
  }

  lemma RestartKeeps(hash: ConnId -> nat, maxConn: int, s: State)
    requires Registry(hash, s) && Room(maxConn, s)
    ensures var t := s.(loop := Counting(0, 0));
            Registry(hash, t) && Room(maxConn, t)
  {
    hide LiveRegistered, OwnIds, IdsInPlace, Numbered, Total;
    NoShardsCounted(s.shards);
  }

  lemma GoKeeps(hash: ConnId -> nat, maxConn: int, s: State)
    requires Registry(hash, s) && Room(maxConn, s) && Enabled(maxConn, s, Go)
    ensures var t := s.(loop := Accepting);
            Registry(hash, t) && Room(maxConn, t)
  {
    hide LiveRegistered, OwnIds, IdsInPlace, Numbered, Total;
    assert s.shards[..|s.shards|] == s.shards;
  }

  lemma CountKeeps(hash: ConnId -> nat, maxConn: int, s: State)
    requires Registry(hash, s) && Room(maxConn, s) && Enabled(maxConn, s, CountShard)
    ensures var t := s.(loop := Counting(s.loop.next + 1, s.loop.sum + |s.shards[s.loop.next]|));
            Registry(hash, t) && Room(maxConn, t)
  {
    hide Total, Shard;
    TotalPrefix(s.shards, s.loop.next);
  }

  lemma RemoveKeeps(hash: ConnId -> nat, maxConn: int, s: State, c: nat)
    requires Registry(hash, s) && Room(maxConn, s) && c in s.live
    ensures var t := Removed(s, Shard(hash, s.live[c]), c);
            Registry(hash, t) && Room(maxConn, t) && t.accepted == s.accepted
  {
    hide Total, Shard;
    RemovedKeepsRegistry(hash, s, c);
    if s.loop.Counting? {
      SmallerPrefix(s.shards, Removed(s, Shard(hash, s.live[c]), c).shards, s.loop.next);
    }
  }

  lemma NoShardsCounted(shards: seq<set<ConnId>>)
    ensures Total(shards[..0]) == 0
  {
  }

  predicate Possible(hash: ConnId -> nat, maxConn: int, s: State, steps: seq<Step>)
    requires |s.shards| == SHARDS
    decreases |steps|
  {
    steps == [] ||
    (Enabled(maxConn, s, steps[0]) && Possible(hash, maxConn, Apply(hash, maxConn, s, steps[0]), steps[1..]))
  }

  function After(hash: ConnId -> nat, maxConn: int, s: State, steps: seq<Step>): State
    requires |s.shards| == SHARDS && Possible(hash, maxConn, s, steps)
    decreases |steps|
  {
    if steps == [] then s else After(hash, maxConn, Apply(hash, maxConn, s, steps[0]), steps[1..])
  }

  /** The count of accepted connections never goes back. */
  lemma {:induction false} AcceptedGrows(hash: ConnId -> nat, maxConn: int, s: State, steps: seq<Step>)
    requires |s.shards| == SHARDS && Possible(hash, maxConn, s, steps)
    ensures s.accepted <= After(hash, maxConn, s, steps).accepted
    decreases |steps|
  {
    hide Shard;
    if steps == [] {
    } else {
      AcceptedGrows(hash, maxConn, Apply(hash, maxConn, s, steps[0]), steps[1..]);
    }
  }

  lemma {:induction false} RunOk(hash: ConnId -> nat, maxConn: int, s: State, steps: seq<Step>)
    requires Registry(hash, s) && Room(maxConn, s)
    requires Possible(hash, maxConn, s, steps) && After(hash, maxConn, s, steps).accepted < ID_LIMIT
    ensures Registry(hash, After(hash, maxConn, s, steps)) && Room(maxConn, After(hash, maxConn, s, steps))
    decreases |steps|
  {
    if steps == [] {
    } else {
      var t := Apply(hash, maxConn, s, steps[0]);
      AcceptedGrows(hash, maxConn, t, steps[1..]);
      assert steps[0] == Register ==> t.accepted == s.accepted + 1;
      hide Registry, Room, Enabled, Apply;
      StepOk(hash, maxConn, s, steps[0]);
      RunOk(hash, maxConn, t, steps[1..]);
    }
  }

  /**
   On every run that accepts fewer connections than there are 64-bit ids, at most the allowed number
   is registered, all under different ids, though no count ever sees all shards at one moment.
   */
  lemma NeverTooMany(hash: ConnId -> nat, maxConn: int, steps: seq<Step>)
    requires Possible(hash, maxConn, Init(), steps) && After(hash, maxConn, Init(), steps).accepted < ID_LIMIT
    ensures var s := After(hash, maxConn, Init(), steps);
            && |s.live| == Total(s.shards) <= Allowed(maxConn)
            && forall c, d :: c in s.live && d in s.live && c != d ==> s.live[c] != s.live[d]
  {
    InitOk(hash, maxConn);
    hide Init, Possible, After, Total;
    RunOk(hash, maxConn, Init(), steps);
  }

  // ----- the limit is reached

  lemma Preceded(hash: ConnId -> nat, maxConn: int, s: State, step: Step, later: seq<Step>)
    requires |s.shards| == SHARDS && Enabled(maxConn, s, step)
    requires Possible(hash, maxConn, Apply(hash, maxConn, s, step), later)
    ensures Possible(hash, maxConn, s, [step] + later)
    ensures After(hash, maxConn, s, [step] + later) == After(hash, maxConn, Apply(hash, maxConn, s, step), later)
  {
    hide Enabled, Apply;
    assert ([step] + later)[1..] == later;
  }

  lemma ApplyKeepsShards(hash: ConnId -> nat, maxConn: int, s: State, step: Step)
    requires |s.shards| == SHARDS && Enabled(maxConn, s, step)
    ensures |Apply(hash, maxConn, s, step).shards| == SHARDS
  {
    hide Shard;
  }

  lemma {:induction false} RunsJoin(hash: ConnId -> nat, maxConn: int, s: State, a: seq<Step>, b: seq<Step>)
    requires |s.shards| == SHARDS && Possible(hash, maxConn, s, a)
    requires |After(hash, maxConn, s, a).shards| == SHARDS && Possible(hash, maxConn, After(hash, maxConn, s, a), b)
    ensures Possible(hash, maxConn, s, a + b)
    ensures After(hash, maxConn, s, a + b) == After(hash, maxConn, After(hash, maxConn, s, a), b)
    decreases |a|
  {
    hide Enabled, Apply;
    if a == [] {
      assert a + b == b;
    } else {
      assert a + b == [a[0]] + (a[1..] + b);
      ApplyKeepsShards(hash, maxConn, s, a[0]);
      RunsJoin(hash, maxConn, Apply(hash, maxConn, s, a[0]), a[1..], b);
      Preceded(hash, maxConn, s, a[0], a[1..] + b);
    }
  }

  /** `n` shards counted, with nothing happening in between. */
  function Counts(n: nat): (steps: seq<Step>)
    ensures |steps| == n
  {
    if n == 0 then [] else [CountShard] + Counts(n - 1)
  }

  lemma {:induction false} CountedUndisturbed(hash: ConnId -> nat, maxConn: int, s: State, n: nat)
    requires |s.shards| == SHARDS && s.loop.Counting? && s.loop.next + n == SHARDS
    ensures Possible(hash, maxConn, s, Counts(n))
    ensures After(hash, maxConn, s, Counts(n))
         == s.(loop := Counting(SHARDS, s.loop.sum + Total(s.shards[s.loop.next..])))
    decreases n
  {
    hide Possible, After;
    var i := s.loop.next;
    if n == 0 {
      NothingHappens(hash, maxConn, s);
      assert s.shards[i..] == [];
    } else {
      assert s.shards[i..][1..] == s.shards[i + 1..];
      CountedUndisturbed(hash, maxConn, Apply(hash, maxConn, s, CountShard), n - 1);
      Preceded(hash, maxConn, s, CountShard, Counts(n - 1));
    }
  }

  lemma NothingHappens(hash: ConnId -> nat, maxConn: int, s: State)
    requires |s.shards| == SHARDS
    ensures Possible(hash, maxConn, s, []) && After(hash, maxConn, s, []) == s
  {
  }

  /**
   Whatever leaves meanwhile, the accept loop never stands still: a count goes on to its end, where
   the sum it has decides, and an accept ends well or not. And any connection may leave at any moment.
   */
  lemma LoopNeverStuck(maxConn: int, s: State)
    requires s.loop.Counting? ==> s.loop.next <= |s.shards|
    ensures match s.loop
            case Counting(next, sum) =>
              if next < |s.shards| then Enabled(maxConn, s, CountShard)
              else (Enabled(maxConn, s, Go) <==> sum < maxConn) && (Enabled(maxConn, s, Wait) <==> maxConn <= sum)
            case Accepting => Enabled(maxConn, s, Register) && Enabled(maxConn, s, Fail)
    ensures forall c: nat :: c in s.live ==> Enabled(maxConn, s, Remove(c))
  {
  }

  /** The accept loop about to count anew. */
  predicate Fresh(hash: ConnId -> nat, maxConn: int, s: State)
  {
    Registry(hash, s) && Room(maxConn, s) && s.loop == Counting(0, 0)
  }

  lemma FreshFacts(hash: ConnId -> nat, maxConn: int, s: State)
    requires Fresh(hash, maxConn, s)
    ensures Registry(hash, s) && Room(maxConn, s) && |s.shards| == SHARDS && s.counter == s.accepted
    ensures |s.live| == Total(s.shards) <= Allowed(maxConn)
  {
    hide LiveRegistered, OwnIds, IdsInPlace, Numbered, Total;
  }

  lemma FreshCounts(hash: ConnId -> nat, maxConn: int, s: State)
    requires Fresh(hash, maxConn, s)
    ensures s.loop == Counting(0, 0)
  {
    hide Registry, Room;
  }

  lemma FreshAgain(hash: ConnId -> nat, maxConn: int, s: State)
    requires Registry(hash, s) && Room(maxConn, s) && s.loop == Counting(0, 0)
    ensures Fresh(hash, maxConn, s)
  {
    hide Registry, Room;
  }

  /**
   An undisturbed count is right, and decides right: the loop goes on to accept exactly when fewer
   than the limit are registered, and waits exactly when the limit is reached.
   */
  lemma DecidesExactly(hash: ConnId -> nat, maxConn: int, s: State)
    requires Fresh(hash, maxConn, s)
    ensures Possible(hash, maxConn, s, Counts(|s.shards|))
    ensures var t := After(hash, maxConn, s, Counts(|s.shards|));
            && t == s.(loop := Counting(SHARDS, |s.live|))
            && (Enabled(maxConn, t, Go) <==> |s.live| < maxConn)
            && (Enabled(maxConn, t, Wait) <==> maxConn <= |s.live|)
  {
    hide Possible, After, Counts, Total, LiveRegistered, OwnIds, IdsInPlace, Numbered;
    CountedUndisturbed(hash, maxConn, s, SHARDS);
    assert s.shards[0..] == s.shards;
  }

  /** A full registry or a failed accept sends the loop back to its count, with nothing changed. */
  lemma CountsAgain(hash: ConnId -> nat, maxConn: int, s: State)
    requires Fresh(hash, maxConn, s)
    ensures var steps := Counts(|s.shards|) + if |s.live| < maxConn then [Go, Fail] else [Wait];
            Possible(hash, maxConn, s, steps) && After(hash, maxConn, s, steps) == s
  {
    assert |s.shards| == SHARDS && s.loop == Counting(0, 0);
    DecidesExactly(hash, maxConn, s);
    hide Possible, After, Counts, Registry, Room;
    var t := After(hash, maxConn, s, Counts(|s.shards|));
    NothingHappens(hash, maxConn, s);
    if |s.live| < maxConn {
      Preceded(hash, maxConn, t.(loop := Accepting), Fail, []);
      Preceded(hash, maxConn, t, Go, [Fail]);
      assert [Go] + [Fail] == [Go, Fail] && [Fail] + [] == [Fail];
      RunsJoin(hash, maxConn, s, Counts(|s.shards|), [Go, Fail]);
    } else {
      Preceded(hash, maxConn, t, Wait, []);
      assert [Wait] + [] == [Wait];
      RunsJoin(hash, maxConn, s, Counts(|s.shards|), [Wait]);
    }
  }

  /** Below the limit the next peer is accepted and registered, under the next id. */
  lemma AcceptsNext(hash: ConnId -> nat, maxConn: int, s: State)
    requires Fresh(hash, maxConn, s) && |s.live| < maxConn && s.accepted + 1 < ID_LIMIT
    ensures var steps := Counts(|s.shards|) + [Go, Register];
            && Possible(hash, maxConn, s, steps)
            && var t := After(hash, maxConn, s, steps);
               Fresh(hash, maxConn, t) && t.accepted == s.accepted + 1 && t.live == s.live[s.accepted := s.accepted + 1]
  {
    hide Possible, After, Counts, Registry, Room, Shard, Fresh;
    FreshFacts(hash, maxConn, s);
    FreshCounts(hash, maxConn, s);
    DecidesExactly(hash, maxConn, s);
    NextIdIsNew(s);
    var t := After(hash, maxConn, s, Counts(|s.shards|));
    var u := Apply(hash, maxConn, t.(loop := Accepting), Register);
    ApplyKeepsShards(hash, maxConn, t.(loop := Accepting), Register);
    NothingHappens(hash, maxConn, u);
    assert [Go] + [Register] == [Go, Register] && [Register] + [] == [Register];
    Preceded(hash, maxConn, t.(loop := Accepting), Register, []);
    Preceded(hash, maxConn, t, Go, [Register]);
    RunsJoin(hash, maxConn, s, Counts(|s.shards|), [Go, Register]);
    RunOk(hash, maxConn, s, Counts(|s.shards|) + [Go, Register]);
    FreshAgain(hash, maxConn, u);
  }

  /**
   The limit is attained, and every number below it: for each there is a run from the start with
   exactly that many connections registered.
   */
  lemma {:induction false} LimitAttained(hash: ConnId -> nat, maxConn: int, n: nat) returns (steps: seq<Step>)
    requires n <= Allowed(maxConn) && n < ID_LIMIT
    ensures Possible(hash, maxConn, Init(), steps)
    ensures var s := After(hash, maxConn, Init(), steps);
            Fresh(hash, maxConn, s) && |s.live| == n && s.accepted == n
    decreases n
  {
    hide Possible, After, Counts, Registry, Room;
    if n == 0 {
      InitOk(hash, maxConn);
      NothingHappens(hash, maxConn, Init());
      steps := [];
    } else {
      var before := LimitAttained(hash, maxConn, n - 1);
      var s := After(hash, maxConn, Init(), before);
      FreshFacts(hash, maxConn, s);
      AcceptsNext(hash, maxConn, s);
      RunsJoin(hash, maxConn, Init(), before, Counts(|s.shards|) + [Go, Register]);
      NumberedIsNew(hash, s);
      steps := before + (Counts(|s.shards|) + [Go, Register]);
    }
  }

  lemma NumberedIsNew(hash: ConnId -> nat, s: State)
    requires Registry(hash, s)
    ensures |s.live[s.accepted := s.accepted + 1]| == |s.live| + 1
  {
    hide LiveRegistered, OwnIds, IdsInPlace;
    OneMore(s.live, s.accepted, s.accepted + 1);
  }

  lemma RemoveIsFresh(hash: ConnId -> nat, maxConn: int, s: State, c: nat)
    requires Fresh(hash, maxConn, s) && c in s.live && |s.shards| == SHARDS
    ensures Enabled(maxConn, s, Remove(c))
    ensures var t := Apply(hash, maxConn, s, Remove(c));
            && Fresh(hash, maxConn, t) && t.accepted == s.accepted && t.live == s.live - {c}
            && |t.live| == |s.live| - 1 < maxConn
  {
    hide Registry, Room, Total, Shard;
    FreshFacts(hash, maxConn, s);
    RemoveKeeps(hash, maxConn, s, c);
    OneLess(s.live, c);
  }

  /** Any connection may leave at any moment, and leaves room for exactly one: the next peer is accepted. */
  lemma MakesRoom(hash: ConnId -> nat, maxConn: int, s: State, c: nat)
    requires Fresh(hash, maxConn, s) && c in s.live && s.accepted + 1 < ID_LIMIT && |s.shards| == SHARDS
    ensures var steps := [Remove(c)] + (Counts(|s.shards|) + [Go, Register]);
            && Possible(hash, maxConn, s, steps)
            && var t := After(hash, maxConn, s, steps);
               && Fresh(hash, maxConn, t) && |t.live| == |s.live|
               && t.live == (s.live - {c})[s.accepted := s.accepted + 1]
  {
    hide Possible, After, Counts, Enabled, Apply, Fresh;
    hide Registry, Room, Total;
    RemoveIsFresh(hash, maxConn, s, c);
    var t := Apply(hash, maxConn, s, Remove(c));
    FreshFacts(hash, maxConn, t);
    assert |t.shards| == |s.shards|;
    AcceptsNext(hash, maxConn, t);
    NumberedIsNew(hash, t);
    Preceded(hash, maxConn, s, Remove(c), Counts(|s.shards|) + [Go, Register]);
  }
}
