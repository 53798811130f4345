/** The close callbacks of a connection: a singly linked list with a tail pointer, changed in place. */
module CloseCallbacks {
  import opened Options

  /** A registered callback: who registered it, under which key, and what to call. */
  datatype Entry<K> = Entry(handler: K, key: K, call: int)

  class Node<K(==)> {
    const entry: Entry<K>
    var next: Node?<K>

    constructor (entry: Entry<K>)
      ensures this.entry == entry && next == null
    {
      this.entry := entry;
      next := null;
    }
  }

  predicate Matches<K(==)>(e: Entry<K>, handler: K, key: K)
  {
    e.handler == handler && e.key == key
  }

  /** The list without its first match. */
  function RemoveFirst<K(==)>(s: seq<Entry<K>>, handler: K, key: K): (r: seq<Entry<K>>)
    ensures |r| == |s| || |r| == |s| - 1
  {
    if s == [] then []
    else if Matches(s[0], handler, key) then s[1..]
    else [s[0]] + RemoveFirst(s[1..], handler, key)
  }

  /** Removal takes out the first entry with this handler and this key, and leaves every other where it is. */
  lemma {:induction false} RemoveFirstAt<K>(s: seq<Entry<K>>, handler: K, key: K, i: nat)
    requires i < |s| && s[i].handler == handler && s[i].key == key
    requires forall j :: 0 <= j < i ==> s[j].handler != handler || s[j].key != key
    ensures RemoveFirst(s, handler, key) == s[..i] + s[i + 1..]
  {
    if i == 0 {
    } else {
      RemoveFirstAt(s[1..], handler, key, i - 1);
      assert s[..i] == [s[0]] + s[1..][..i - 1];
    }
  }

  lemma {:induction false} RemoveFirstAbsent<K>(s: seq<Entry<K>>, handler: K, key: K)
    requires forall e <- s :: e.handler != handler || e.key != key
    ensures RemoveFirst(s, handler, key) == s
  {
    if s == [] {
    } else {
      RemoveFirstAbsent(s[1..], handler, key);
    }
  }

  /** The entry at `i` is the first with this handler and this key. */
  predicate FirstMatch<K(==)>(s: seq<Entry<K>>, handler: K, key: K, i: nat)
    requires i < |s|
  {
    && s[i].handler == handler && s[i].key == key
    && forall j :: 0 <= j < i ==> s[j].handler != handler || s[j].key != key
  }

  lemma OnlyFirstMatch<K>(s: seq<Entry<K>>, handler: K, key: K)
    ensures forall i :: 0 <= i < |s| && FirstMatch(s, handler, key, i) ==>
              RemoveFirst(s, handler, key) == s[..i] + s[i + 1..]
    ensures (forall e <- s :: e.handler != handler || e.key != key) ==> RemoveFirst(s, handler, key) == s
  {
    forall i | 0 <= i < |s| && FirstMatch(s, handler, key, i)
      ensures RemoveFirst(s, handler, key) == s[..i] + s[i + 1..]
    {
      RemoveFirstAt(s, handler, key, i);
    }
    if forall e <- s :: e.handler != handler || e.key != key {
      RemoveFirstAbsent(s, handler, key);
    }
  }

  /** What was just added under a new name is what a removal of that name takes off again. */
  lemma {:induction false} RemoveUndoesAdd<K>(s: seq<Entry<K>>, e: Entry<K>)
    requires forall d <- s :: d.handler != e.handler || d.key != e.key
    ensures RemoveFirst(s + [e], e.handler, e.key) == s
  {
    RemoveFirstAt(s + [e], e.handler, e.key, |s|);
  }

  /** Removals under different names do not get in each other's way. */
  lemma {:induction false} RemovalsCommute<K>(s: seq<Entry<K>>, h1: K, k1: K, h2: K, k2: K)
    ensures RemoveFirst(RemoveFirst(s, h1, k1), h2, k2) == RemoveFirst(RemoveFirst(s, h2, k2), h1, k1)
  {
    if s == [] {
    } else {
      RemovalsCommute(s[1..], h1, k1, h2, k2);
    }
  }

  function Calls<K>(s: seq<Entry<K>>): (ids: seq<int>)
    ensures |ids| == |s| && forall i :: 0 <= i < |s| ==> ids[i] == s[i].call
  {
    seq(|s|, i requires 0 <= i < |s| => s[i].call)
  }

  class Callbacks<K(==)> {
    var first: Node?<K>
    var last: Node?<K>
    ghost var nodes: seq<Node<K>>

    /** The nodes are the list from `first` by `next`, without cycles, and `last` is its last. */
    ghost predicate Valid()
      reads this, nodes
    {
      && (forall i, j :: 0 <= i < j < |nodes| ==> nodes[i] != nodes[j])
      && (nodes == [] ==> first == null && last == null)
      && (nodes != [] ==> first == nodes[0] && last == nodes[|nodes| - 1] && last.next == null)
      && (forall i :: 0 <= i < |nodes| - 1 ==> nodes[i].next == nodes[i + 1])
    }

    ghost function Contents(): (s: seq<Entry<K>>)
      reads this
      ensures |s| == |nodes|
    {
      Entries(nodes)
    }

    static ghost function Entries(ns: seq<Node<K>>): (s: seq<Entry<K>>)
      ensures |s| == |ns| && forall i :: 0 <= i < |ns| ==> s[i] == ns[i].entry
    {
      seq(|ns|, i requires 0 <= i < |ns| => ns[i].entry)
    }

    constructor ()
      ensures Valid() && Contents() == []
    {
      first, last, nodes := null, null, [];
    }

    /** Appends, unless there is nothing to call. */
    method Add(handler: K, key: K, callback: Option<int>)
      requires Valid()
      modifies this, nodes
      ensures Valid() && fresh(set n | n in nodes && n !in old(nodes))
      ensures Contents() == old(Contents()) +
                match callback
                case None => []
                case Some(call) => [Entry(handler, key, call)]
    {
      if callback == None {
        return;
      }
      var newItem := new Node(Entry(handler, key, callback.value));
      if first == null {
        first := newItem;
      } else {
        last.next := newItem;
      }
      last := newItem;
      nodes := nodes + [newItem];
    }

    static lemma EntriesWithout(ns: seq<Node<K>>, i: nat)
      requires i < |ns|
      ensures Entries(ns[..i] + ns[i + 1..]) == Entries(ns)[..i] + Entries(ns)[i + 1..]
    {
    }

    /** Takes the node at position `i` out of the list. */
    method Unlink(prev: Node?<K>, callback: Node<K>, ghost i: nat)
      requires Valid() && i < |nodes| && callback == nodes[i]
      requires prev == if i > 0 then nodes[i - 1] else null
      modifies this, nodes
      ensures Valid() && nodes == old(nodes)[..i] + old(nodes)[i + 1..]
    {
      if first == callback {
        first := callback.next;
      } else if prev != null {
        prev.next := callback.next;
      }
      if last == callback {
        last := prev;
      }
      nodes := nodes[..i] + nodes[i + 1..];
    }

    method Remove(handler: K, key: K)
      requires Valid()
      modifies this, nodes
      ensures Valid() && forall n <- nodes :: n in old(nodes)
      ensures (forall e <- old(Contents()) :: e.handler != handler || e.key != key) ==> Contents() == old(Contents())
      ensures forall i :: 0 <= i < |old(Contents())| && FirstMatch(old(Contents()), handler, key, i) ==>
                Contents() == old(Contents())[..i] + old(Contents())[i + 1..]
      ensures Contents() == RemoveFirst(old(Contents()), handler, key)
    {
      OnlyFirstMatch(Contents(), handler, key);
      hide RemoveFirst;
      var prev: Node?<K> := null;
      var callback := first;
      ghost var i := 0;
      while callback != null
        invariant Valid() && nodes == old(nodes) && 0 <= i <= |nodes|
        invariant callback == if i < |nodes| then nodes[i] else null
        invariant prev == if i > 0 then nodes[i - 1] else null
        invariant forall j :: 0 <= j < i ==> !Matches(Contents()[j], handler, key)
        decreases |nodes| - i
      {
        if callback.entry.handler == handler && callback.entry.key == key {
          RemoveFirstAt(Contents(), handler, key, i);
          EntriesWithout(nodes, i);
          Unlink(prev, callback, i);
          return;
        }
        prev, callback := callback, callback.next;
        i := i + 1;
      }
      RemoveFirstAbsent(Contents(), handler, key);
    }

    /** Makes the calls in the order they were registered. */
    method Invoke() returns (made: seq<int>)
      requires Valid()
      ensures made == Calls(Contents())
    {
      made := [];
      var callback := first;
      while callback != null
        invariant |made| <= |nodes|
        invariant callback == if |made| < |nodes| then nodes[|made|] else null
        invariant made == Calls(Contents())[..|made|]
        decreases |nodes| - |made|
      {
        made := made + [callback.entry.call];
        callback := callback.next;
      }
    }

    method Count() returns (count: int)
      requires Valid()
      ensures count == |Contents()|
    {
      count := 0;
      var callback := first;
      while callback != null
        invariant 0 <= count <= |nodes|
        invariant callback == if count < |nodes| then nodes[count] else null
        decreases |nodes| - count
      {
        count := count + 1;
        callback := callback.next;
      }
    }
  }
}
