/** The sharded map: 32 maps, each key in the one its hash picks, behaving like a single map. */
module ShardMap {
  import opened Options

  type Key = string

  const SHARD_COUNT: nat := 32

  // ----- a list of maps with a place for every key

  function Merge<V>(ms: seq<map<Key, V>>): map<Key, V>
  {
    if ms == [] then map[] else ms[0] + Merge(ms[1..])
  }

  function TotalSize<V>(ms: seq<map<Key, V>>): nat
  {
    if ms == [] then 0 else |ms[0]| + TotalSize(ms[1..])
  }

  /** Every key of map `i` has its place at `first + i`. */
  ghost predicate InPlace<V>(ms: seq<map<Key, V>>, place: Key -> nat, first: nat)
  {
    forall i, k :: 0 <= i < |ms| && k in ms[i] ==> place(k) == first + i
  }

  /** A key is in the merged map exactly when it is in the map at its place, with the same value. */
  lemma {:induction false} MergeLookup<V>(ms: seq<map<Key, V>>, place: Key -> nat, first: nat, k: Key)
    requires InPlace(ms, place, first)
    ensures k in Merge(ms) <==> first <= place(k) < first + |ms| && k in ms[place(k) - first]
    ensures k in Merge(ms) ==> Merge(ms)[k] == ms[place(k) - first][k]
  {
    if ms == [] {
    } else {
      assert InPlace(ms[1..], place, first + 1) by {
        forall i, j | 0 <= i < |ms[1..]| && j in ms[1..][i]
          ensures place(j) == first + 1 + i
        {
          assert j in ms[i + 1];
        }
      }
      MergeLookup(ms[1..], place, first + 1, k);
    }
  }

  lemma {:induction false} MergeSize<V>(ms: seq<map<Key, V>>, place: Key -> nat, first: nat)
    requires InPlace(ms, place, first)
    ensures |Merge(ms)| == TotalSize(ms)
  {
    if ms == [] {
    } else {
      forall i, j | 0 <= i < |ms[1..]| && j in ms[1..][i]
        ensures place(j) == first + 1 + i
      {
        assert j in ms[i + 1];
      }
      MergeSize(ms[1..], place, first + 1);
      forall k | k in ms[0]
        ensures k !in Merge(ms[1..])
      {
        MergeLookup(ms[1..], place, first + 1, k);
      }
      assert Merge(ms).Keys == ms[0].Keys + Merge(ms[1..]).Keys;
      assert |Merge(ms).Keys| == |ms[0].Keys| + |Merge(ms[1..]).Keys|;
    }
  }

  /** Changing one key in the map at its place changes just that key of the merged map. */
  lemma MergeUpdate<V>(ms: seq<map<Key, V>>, place: Key -> nat, k: Key, m: map<Key, V>)
    requires InPlace(ms, place, 0) && place(k) < |ms|
    requires m - {k} == ms[place(k)] - {k}
    ensures InPlace(ms[place(k) := m], place, 0)
    ensures Merge(ms[place(k) := m]) == Merge(ms) - {k} + (if k in m then map[k := m[k]] else map[])
  {
    hide Merge;
    var ms' := ms[place(k) := m];
    forall i, j | 0 <= i < |ms'| && j in ms'[i]
      ensures place(j) == i
    {
      if j != k && i == place(k) {
        assert j in m - {k};
      }
    }
    assert InPlace(ms', place, 0);
    var want := Merge(ms) - {k} + (if k in m then map[k := m[k]] else map[]);
    forall j
      ensures j in Merge(ms') <==> j in want
      ensures j in want ==> Merge(ms')[j] == want[j]
    {
      MergeLookup(ms, place, 0, j);
      MergeLookup(ms', place, 0, j);
      if j != k && place(j) == place(k) {
        assert j in m - {k} <==> j in ms[place(k)] - {k};
        assert j in m ==> (m - {k})[j] == (ms[place(k)] - {k})[j];
      }
    }
  }

  // ----- the map object

  class Shard<V> {
    var items: map<Key, V>

    constructor ()
      ensures items == map[]
    {
      items := map[];
    }
  }

  datatype Tuple<+V> = Tuple(key: Key, val: V)

  /** The pairs of a map, each once, in some order. */
  ghost predicate Lists<V>(tuples: seq<Tuple<V>>, m: map<Key, V>)
  {
    && (forall i, j :: 0 <= i < j < |tuples| ==> tuples[i].key != tuples[j].key)
    && (forall t <- tuples :: t.key in m && m[t.key] == t.val)
    && (forall k <- m :: Tuple(k, m[k]) in tuples)
  }

  lemma ListsOneMore<V>(tuples: seq<Tuple<V>>, m: map<Key, V>, k: Key, v: V)
    requires Lists(tuples, m) && k !in m
    ensures Lists(tuples + [Tuple(k, v)], m[k := v])
  {
    var more := tuples + [Tuple(k, v)];
    assert more[|tuples|] == Tuple(k, v);
    assert forall j <- m :: Tuple(j, m[j]) in tuples ==> Tuple(j, m[j]) in more;
  }

  lemma ListsJoined<V>(a: seq<Tuple<V>>, b: seq<Tuple<V>>, m: map<Key, V>, n: map<Key, V>)
    requires Lists(a, m) && Lists(b, n) && m.Keys !! n.Keys
    ensures Lists(a + b, m + n)
  {
    forall i, j | 0 <= i < j < |a + b|
      ensures (a + b)[i].key != (a + b)[j].key
    {
      if i < |a| <= j {
        assert a[i] in a && b[j - |a|] in b;
      }
    }
    forall k | k in m + n
      ensures Tuple(k, (m + n)[k]) in a + b
    {
      if k in n {
        assert Tuple(k, n[k]) in b;
      } else {
        assert Tuple(k, m[k]) in a;
      }
    }
  }

  lemma ListsSame<V>(tuples: seq<Tuple<V>>, m: map<Key, V>, n: map<Key, V>)
    requires Lists(tuples, m) && Lists(tuples, n)
    ensures m == n
  {
    forall k
      ensures k in m <==> k in n
      ensures k in m ==> m[k] == n[k]
    {
      if k in m {
        assert Tuple(k, m[k]) in tuples;
      }
      if k in n {
        assert Tuple(k, n[k]) in tuples;
      }
    }
  }

  lemma ListsPrefix<V>(tuples: seq<Tuple<V>>, m: map<Key, V>, i: nat, part: map<Key, V>)
    requires Lists(tuples, m) && i < |tuples| && Lists(tuples[..i], part)
    ensures tuples[i].key !in part && Lists(tuples[..i + 1], part[tuples[i].key := tuples[i].val])
  {
    var k := tuples[i].key;
    assert forall j :: 0 <= j < i ==> tuples[..i][j].key != k;
    ListsOneMore(tuples[..i], part, k, tuples[i].val);
    assert tuples[..i + 1] == tuples[..i] + [Tuple(k, tuples[i].val)];
  }

  lemma MergeOneMore<V>(ms: seq<map<Key, V>>, place: Key -> nat, i: nat)
    requires InPlace(ms, place, 0) && i < |ms|
    ensures Merge(ms[..i]).Keys !! ms[i].Keys
    ensures Merge(ms[..i + 1]) == Merge(ms[..i]) + ms[i]
  {
    forall k
      ensures k in Merge(ms[..i + 1]) <==> k in Merge(ms[..i]) || k in ms[i]
      ensures k in Merge(ms[..i]) ==> k !in ms[i] && Merge(ms[..i + 1])[k] == Merge(ms[..i])[k]
      ensures k in ms[i] ==> Merge(ms[..i + 1])[k] == ms[i][k]
    {
      hide Merge;
      MergeLookup(ms[..i], place, 0, k);
      MergeLookup(ms[..i + 1], place, 0, k);
    }
  }

  lemma PutAfterRemoving<V>(m: map<Key, V>, k: Key, v: V)
    ensures m - {k} + map[k := v] == m[k := v]
  {
  }

  /** Entries of `data` put into `m` one by one, in any order. */
  lemma PutOneMore<V>(m: map<Key, V>, data: map<Key, V>, todo: set<Key>, k: Key)
    requires k in todo && todo <= data.Keys
    ensures (m + (data - todo))[k := data[k]] == m + (data - (todo - {k}))
  {
  }

  class ShardLockMaps<V(0)> {
    const hash: Key -> nat
    const shards: seq<Shard<V>>

    ghost function Place(): Key -> nat
    {
      (k: Key) => hash(k) % SHARD_COUNT
    }

    ghost function Maps(): (ms: seq<map<Key, V>>)
      reads shards
      ensures |ms| == |shards| && forall i :: 0 <= i < |shards| ==> ms[i] == shards[i].items
    {
      seq(|shards|, i requires 0 <= i < |shards| reads shards => shards[i].items)
    }

    /** Each key lives only in the shard its hash picks. */
    ghost predicate Valid()
      reads shards
    {
      && |shards| == SHARD_COUNT
      && (forall i, j :: 0 <= i < j < |shards| ==> shards[i] != shards[j])
      && InPlace(Maps(), Place(), 0)
    }

    /** The one map that the shards stand for. */
    ghost function Contents(): map<Key, V>
      reads shards
    {
      Merge(Maps())
    }

    constructor (hash: Key -> nat)
      ensures Valid() && Contents() == map[] && this.hash == hash && fresh(shards)
    {
      var ss: seq<Shard<V>> := [];
      var i := 0;
      while i < SHARD_COUNT
        invariant 0 <= i <= SHARD_COUNT && |ss| == i && fresh(ss)
        invariant forall j :: 0 <= j < i ==> ss[j].items == map[]
        invariant forall j, l :: 0 <= j < l < i ==> ss[j] != ss[l]
      {
        var shard := new Shard<V>();
        ss := ss + [shard];
        i := i + 1;
      }
      this.hash, this.shards := hash, ss;
      new;
      EmptyMerge(Maps());
    }

    static lemma {:induction false} EmptyMerge(ms: seq<map<Key, V>>)
      requires forall i :: 0 <= i < |ms| ==> ms[i] == map[]
      ensures Merge(ms) == map[]
    {
      if ms == [] {
      } else {
        EmptyMerge(ms[1..]);
      }
    }

    function ShardIndex(key: Key): (i: nat)
      ensures i < SHARD_COUNT
    {
      hash(key) % SHARD_COUNT
    }

    lemma Lookup(key: Key)
      requires Valid()
      ensures key in Contents() <==> key in shards[ShardIndex(key)].items
      ensures key in Contents() ==> Contents()[key] == shards[ShardIndex(key)].items[key]
    {
      MergeLookup(Maps(), Place(), 0, key);
    }

    /** Thirty-two shards, and a key in the one whose number its hash leaves over. */
    lemma KeyLivesInItsShard(key: Key, i: nat)
      requires Valid() && i < |shards| && key in shards[i].items
      ensures |shards| == 32 && i == hash(key) % 32
    {
      assert key in Maps()[i] && Place()(key) == i;
    }

    /** Stores a shard's new items, which may differ from the old ones at `key` only. */
    method Store(key: Key, items: map<Key, V>)
      requires Valid() && items - {key} == shards[ShardIndex(key)].items - {key}
      modifies shards
      ensures Valid()
      ensures Contents() == old(Contents()) - {key} + (if key in items then map[key := items[key]] else map[])
    {
      ghost var before := Maps();
      var i := ShardIndex(key);
      shards[i].items := items;
      assert Maps() == before[i := items];
      MergeUpdate(before, Place(), key, items);
    }

    method Get(key: Key) returns (v: Option<V>)
      requires Valid()
      ensures v == if key in Contents() then Some(Contents()[key]) else None
    {
      Lookup(key);
      var items := shards[ShardIndex(key)].items;
      v := if key in items then Some(items[key]) else None;
    }

    method Has(key: Key) returns (ok: bool)
      requires Valid()
      ensures ok <==> key in Contents()
    {
      Lookup(key);
      ok := key in shards[ShardIndex(key)].items;
    }

    method Set(key: Key, value: V)
      requires Valid()
      modifies shards
      ensures Valid() && Contents() == old(Contents())[key := value]
    {
      ghost var was := Contents();
      var items := shards[ShardIndex(key)].items;
      assert items[key := value] - {key} == items - {key};
      Store(key, items[key := value]);
      PutAfterRemoving(was, key, value);
    }

    method SetNX(key: Key, value: V) returns (stored: bool)
      requires Valid()
      modifies shards
      ensures Valid() && stored == (key !in old(Contents()))
      ensures Contents() == if stored then old(Contents())[key := value] else old(Contents())
    {
      Lookup(key);
      var items := shards[ShardIndex(key)].items;
      stored := key !in items;
      if stored {
        Set(key, value);
      }
    }

    method MSet(data: map<Key, V>)
      requires Valid()
      modifies shards
      ensures Valid() && Contents() == old(Contents()) + data
    {
      hide Valid, Contents;
      var todo := data.Keys;
      assert Contents() == Contents() + (data - todo);
      while todo != {}
        invariant Valid() && todo <= data.Keys
        invariant Contents() == old(Contents()) + (data - todo)
        decreases |todo|
      {
        var key :| key in todo;
        PutOneMore(old(Contents()), data, todo, key);
        Set(key, data[key]);
        todo := todo - {key};
      }
      assert data - todo == data;
    }

    method Remove(key: Key)
      requires Valid()
      modifies shards
      ensures Valid() && Contents() == old(Contents()) - {key}
    {
      Store(key, shards[ShardIndex(key)].items - {key});
    }

    method RemoveCb(key: Key, cb: (Key, Option<V>) -> bool) returns (remove: bool)
      requires Valid()
      modifies shards
      ensures Valid()
      ensures remove == cb(key, if key in old(Contents()) then Some(old(Contents())[key]) else None)
      ensures Contents() == if remove then old(Contents()) - {key} else old(Contents())
    {
      Lookup(key);
      var items := shards[ShardIndex(key)].items;
      remove := cb(key, if key in items then Some(items[key]) else None);
      if remove && key in items {
        Store(key, items - {key});
      }
      assert key !in old(Contents()) ==> old(Contents()) - {key} == old(Contents());
    }

    method Pop(key: Key) returns (v: Option<V>)
      requires Valid()
      modifies shards
      ensures Valid() && Contents() == old(Contents()) - {key}
      ensures v == if key in old(Contents()) then Some(old(Contents())[key]) else None
    {
      v := Get(key);
      Remove(key);
    }

    method Count() returns (count: nat)
      requires Valid()
      ensures count == |Contents()|
    {
      count := 0;
      var i := 0;
      assert Maps()[0..] == Maps();
      while i < SHARD_COUNT
        invariant 0 <= i <= SHARD_COUNT
        invariant count + TotalSize(Maps()[i..]) == TotalSize(Maps())
      {
        assert Maps()[i..][1..] == Maps()[i + 1..];
        count := count + |shards[i].items|;
        i := i + 1;
      }
      MergeSize(Maps(), Place(), 0);
    }

    /** All pairs, undisturbed by other goroutines. */
    method IterBuffered() returns (tuples: seq<Tuple<V>>)
      requires Valid()
      ensures Lists(tuples, Contents())
    {
      tuples := [];
      var i := 0;
      while i < SHARD_COUNT
        invariant 0 <= i <= SHARD_COUNT
        invariant Lists(tuples, Merge(Maps()[..i]))
      {
        var more := ListItems(shards[i].items);
        MergeOneMore(Maps(), Place(), i);
        ListsJoined(tuples, more, Merge(Maps()[..i]), Maps()[i]);
        tuples := tuples + more;
        i := i + 1;
      }
      assert Maps()[..i] == Maps();
    }

    static method ListItems(m: map<Key, V>) returns (tuples: seq<Tuple<V>>)
      ensures Lists(tuples, m)
    {
      tuples := [];
      var todo := m.Keys;
      while todo != {}
        invariant todo <= m.Keys && Lists(tuples, m - todo)
        decreases |todo|
      {
        var key :| key in todo;
        ListsOneMore(tuples, m - todo, key, m[key]);
        assert (m - todo)[key := m[key]] == m - (todo - {key});
        tuples := tuples + [Tuple(key, m[key])];
        todo := todo - {key};
      }
      assert m - todo == m;
    }

    method Items() returns (tmp: map<Key, V>)
      requires Valid()
      ensures tmp == Contents()
    {
      var tuples := IterBuffered();
      tmp := map[];
      var i := 0;
      while i < |tuples|
        invariant 0 <= i <= |tuples| && Lists(tuples[..i], tmp)
      {
        ListsPrefix(tuples, Contents(), i, tmp);
        tmp := tmp[tuples[i].key := tuples[i].val];
        i := i + 1;
      }
      assert tuples[..i] == tuples;
      ListsSame(tuples, tmp, Contents());
    }

    method Clear()
      requires Valid()
      modifies shards
      ensures Valid() && Contents() == map[]
    {
      hide Valid, Contents;
      var tuples := IterBuffered();
      var i := 0;
      while i < |tuples|
        invariant 0 <= i <= |tuples| && Valid()
        invariant forall k <- Contents() :: exists j :: i <= j < |tuples| && tuples[j].key == k
      {
        Remove(tuples[i].key);
        i := i + 1;
      }
    }
  }
}
