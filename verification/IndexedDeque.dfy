/** The doubly-linked queue with a key index that holds the pooled fragments. */
module IndexedDeque {
  import opened Base

  class Entry<K, V> {
    const key: K
    const value: V
    var prev: Entry?<K, V>
    var next: Entry?<K, V>

    constructor (key: K, value: V, prev: Entry?<K, V>, next: Entry?<K, V>)
      ensures this.key == key && this.value == value && this.prev == prev && this.next == next
    {
      this.key, this.value, this.prev, this.next := key, value, prev, next;
    }
  }

  ghost predicate DistinctKeys<K, V>(items: seq<(K, V)>) {
    forall i, j :: 0 <= i < j < |items| ==> items[i].0 != items[j].0
  }

  predicate HasKey<K(==), V>(items: seq<(K, V)>, key: K) {
    exists i :: 0 <= i < |items| && items[i].0 == key
  }

  /** Order-preserving deletion of the item with the given key. */
  function Delete<K(==), V>(items: seq<(K, V)>, key: K): (r: seq<(K, V)>) {
    if items == [] then []
    else if items[0].0 == key then items[1..]
    else [items[0]] + Delete(items[1..], key)
  }

  lemma {:induction false} DeleteAt<K, V>(items: seq<(K, V)>, k: nat)
    requires k < |items| && DistinctKeys(items)
    ensures Delete(items, items[k].0) == items[..k] + items[k + 1..]
  {
    if k > 0 {
      DeleteAt(items[1..], k - 1);
    }
  }

  lemma {:induction false} DeleteAbsent<K, V>(items: seq<(K, V)>, key: K)
    requires !HasKey(items, key)
    ensures Delete(items, key) == items
  {
    if items != [] {
      assert forall i :: 0 <= i < |items[1..]| ==> items[1..][i] == items[i + 1];
      DeleteAbsent(items[1..], key);
    }
  }

  /** The `prev` chain runs through `nodes` from `tail`, the `next` chain back from `head`. */
  ghost predicate Linked<K, V>(nodes: seq<Entry<K, V>>, head: Entry?<K, V>, tail: Entry?<K, V>)
    reads nodes
  {
    if nodes == [] then head == null && tail == null
    else
      && tail == nodes[0] && nodes[0].next == null
      && head == nodes[|nodes| - 1] && nodes[|nodes| - 1].prev == null
      && (forall i {:trigger nodes[i].prev} :: 0 <= i < |nodes| - 1 ==> nodes[i].prev == nodes[i + 1])
      && (forall i {:trigger nodes[i].next} :: 0 < i < |nodes| ==> nodes[i].next == nodes[i - 1])
  }

  /** `nodes` hold `items` under distinct keys, and the index finds each node by its key. */
  ghost predicate Indexed<K, V>(nodes: seq<Entry<K, V>>, items: seq<(K, V)>, index: map<K, Entry<K, V>>) {
    && |index| == |nodes| == |items|
    && DistinctKeys(items)
    && (forall i :: 0 <= i < |nodes| ==>
          && items[i] == (nodes[i].key, nodes[i].value)
          && nodes[i].key in index && index[nodes[i].key] == nodes[i])
    && (forall k :: k in index ==> index[k] in nodes && index[k].key == k)
  }

  lemma IndexLookup<K, V>(nodes: seq<Entry<K, V>>, items: seq<(K, V)>, index: map<K, Entry<K, V>>, key: K)
    requires Indexed(nodes, items, index)
    ensures key in index <==> HasKey(items, key)
    ensures key in index ==> index[key] in nodes && index[key].key == key
  {
    if key in index {
      var i :| 0 <= i < |nodes| && nodes[i] == index[key];
      assert items[i].0 == key;
    }
  }

  lemma IndexInsert<K, V>(nodes: seq<Entry<K, V>>, items: seq<(K, V)>, index: map<K, Entry<K, V>>,
                          entry: Entry<K, V>)
    requires Indexed(nodes, items, index) && entry.key !in index
    ensures Indexed([entry] + nodes, [(entry.key, entry.value)] + items, index[entry.key := entry])
    ensures Indexed(nodes + [entry], items + [(entry.key, entry.value)], index[entry.key := entry])
  {
    forall i | 0 <= i < |items|
      ensures items[i].0 != entry.key
    {
      assert items[i].0 == nodes[i].key;
    }
  }

  lemma IndexRemove<K, V>(nodes: seq<Entry<K, V>>, items: seq<(K, V)>, index: map<K, Entry<K, V>>, k: nat)
    requires Indexed(nodes, items, index) && k < |nodes|
    ensures Indexed(nodes[..k] + nodes[k + 1..], items[..k] + items[k + 1..], index - {nodes[k].key})
  {
    var nodes', items', index' := nodes[..k] + nodes[k + 1..], items[..k] + items[k + 1..], index - {nodes[k].key};
    OneKeyLess(index, nodes[k].key);
    DistinctWithout(items, k);
    hide DistinctKeys;
    forall i | 0 <= i < |nodes'|
      ensures items'[i] == (nodes'[i].key, nodes'[i].value)
      ensures nodes'[i].key in index' && index'[nodes'[i].key] == nodes'[i]
    {
      var j := if i < k then i else i + 1;
      DistinctAt(items, j, k);
      assert nodes'[i] == nodes[j] && items'[i] == items[j];
    }
    forall key | key in index'
      ensures index'[key] in nodes' && index'[key].key == key
    {
      IndexRemoveFinds(nodes, index[key], k);
    }
  }

  lemma OneKeyLess<K, T>(index: map<K, T>, key: K)
    requires key in index
    ensures |index - {key}| == |index| - 1
  {
    assert (index - {key}).Keys == index.Keys - {key};
  }

  lemma DistinctAt<K, V>(items: seq<(K, V)>, j: nat, k: nat)
    requires DistinctKeys(items) && j < |items| && k < |items| && j != k
    ensures items[j].0 != items[k].0
  {
  }

  lemma DistinctWithout<K, V>(items: seq<(K, V)>, k: nat)
    requires DistinctKeys(items) && k < |items|
    ensures DistinctKeys(items[..k] + items[k + 1..])
  {
  }

  lemma IndexRemoveFinds<T>(nodes: seq<T>, n: T, k: nat)
    requires k < |nodes| && n in nodes && n != nodes[k]
    ensures n in nodes[..k] + nodes[k + 1..]
  {
    var j :| 0 <= j < |nodes| && nodes[j] == n;
    assert n == (nodes[..k] + nodes[k + 1..])[if j < k then j else j - 1];
  }

  ghost predicate Distinct<T>(s: seq<T>) {
    forall i, j :: 0 <= i < j < |s| ==> s[i] != s[j]
  }

  lemma NodesDistinct<K, V>(nodes: seq<Entry<K, V>>, items: seq<(K, V)>, index: map<K, Entry<K, V>>)
    requires Indexed(nodes, items, index)
    ensures Distinct(nodes)
  {
    forall i, j | 0 <= i < j < |nodes|
      ensures nodes[i] != nodes[j]
    {
      assert items[i].0 != items[j].0;
    }
  }

  lemma ItemOfNode<K, V>(nodes: seq<Entry<K, V>>, items: seq<(K, V)>, index: map<K, Entry<K, V>>, k: int)
    requires Indexed(nodes, items, index)
    ensures |items| == |nodes| && DistinctKeys(items)
    ensures 0 <= k < |nodes| ==> items[k] == (nodes[k].key, nodes[k].value)
  {
  }

  lemma TailOfChain<K, V>(nodes: seq<Entry<K, V>>, head: Entry?<K, V>, tail: Entry?<K, V>)
    requires Linked(nodes, head, tail)
    ensures if nodes == [] then tail == null else tail == nodes[0]
  {
  }

  /** Skipping position `k` in both directions leaves a chain through the other nodes. */
  lemma LinkedWithout<K, V>(nodes: seq<Entry<K, V>>, k: nat, head: Entry?<K, V>, tail: Entry?<K, V>)
    requires k < |nodes|
    requires tail == if k > 0 then nodes[0] else if |nodes| > 1 then nodes[1] else null
    requires head == if k < |nodes| - 1 then nodes[|nodes| - 1] else if k > 0 then nodes[k - 1] else null
    requires forall i {:trigger nodes[i].prev} :: 0 <= i < |nodes| && i != k ==>
               nodes[i].prev == (var j := if i + 1 == k then i + 2 else i + 1; if j < |nodes| then nodes[j] else null)
    requires forall i {:trigger nodes[i].next} :: 0 <= i < |nodes| && i != k ==>
               nodes[i].next == (var j := if i - 1 == k then i - 2 else i - 1; if j >= 0 then nodes[j] else null)
    ensures Linked(nodes[..k] + nodes[k + 1..], head, tail)
  {
    var rest := nodes[..k] + nodes[k + 1..];
    forall i | 0 <= i < |rest|
      ensures rest[i].prev == if i + 1 < |rest| then rest[i + 1] else null
      ensures rest[i].next == if i > 0 then rest[i - 1] else null
    {
      var j := if i < k then i else i + 1;
      assert rest[i] == nodes[j];
    }
  }

  /** Following `prev` from `e` inside the given nodes. */
  ghost function PrevSteps<K, V>(e: Entry?<K, V>, steps: nat, nodes: seq<Entry<K, V>>): Entry?<K, V>
    reads nodes
  {
    if steps == 0 || e == null || e !in nodes then e else PrevSteps(e.prev, steps - 1, nodes)
  }

  ghost function NextSteps<K, V>(e: Entry?<K, V>, steps: nat, nodes: seq<Entry<K, V>>): Entry?<K, V>
    reads nodes
  {
    if steps == 0 || e == null || e !in nodes then e else NextSteps(e.next, steps - 1, nodes)
  }

  /** Walking from the tail and walking from the head meet the same entries, in opposite orders. */
  lemma {:induction false} WalksAgree<K, V>(nodes: seq<Entry<K, V>>, head: Entry?<K, V>, tail: Entry?<K, V>, i: nat)
    requires Linked(nodes, head, tail) && i < |nodes|
    ensures PrevSteps(tail, i, nodes) == nodes[i] && NextSteps(head, |nodes| - 1 - i, nodes) == nodes[i]
    ensures PrevSteps(tail, |nodes|, nodes) == null && NextSteps(head, |nodes|, nodes) == null
  {
    PrevFrom(nodes, head, tail, 0, i);
    PrevFrom(nodes, head, tail, 0, |nodes|);
    NextFrom(nodes, head, tail, |nodes| - 1, |nodes| - 1 - i);
    NextFrom(nodes, head, tail, |nodes| - 1, |nodes|);
  }

  lemma {:induction false} PrevFrom<K, V>(nodes: seq<Entry<K, V>>, head: Entry?<K, V>, tail: Entry?<K, V>, j: nat,
                                          steps: nat)
    requires Linked(nodes, head, tail) && j < |nodes| && j + steps <= |nodes|
    ensures PrevSteps(nodes[j], steps, nodes) == if j + steps < |nodes| then nodes[j + steps] else null
    decreases steps
  {
    if steps > 0 && j + 1 < |nodes| {
      PrevFrom(nodes, head, tail, j + 1, steps - 1);
    }
  }

  lemma {:induction false} NextFrom<K, V>(nodes: seq<Entry<K, V>>, head: Entry?<K, V>, tail: Entry?<K, V>, j: nat,
                                          steps: nat)
    requires Linked(nodes, head, tail) && j < |nodes| && steps <= j + 1
    ensures NextSteps(nodes[j], steps, nodes) == if steps <= j then nodes[j - steps] else null
    decreases steps
  {
    if steps > 0 && j > 0 {
      NextFrom(nodes, head, tail, j - 1, steps - 1);
    }
  }

  class Deque<K(==), V> {
    var head: Entry?<K, V>
    var tail: Entry?<K, V>
    var index: map<K, Entry<K, V>>
    ghost var nodes: seq<Entry<K, V>>  // the entries from tail to head
    ghost var items: seq<(K, V)>       // what they hold
    ghost var repr: set<Entry<K, V>>   // every entry allocated so far

    ghost predicate Valid()
      reads this, repr
    {
      && (forall n :: n in nodes ==> n in repr)
      && Linked(nodes, head, tail) && Indexed(nodes, items, index)
    }

    constructor ()
      ensures Valid() && items == [] && repr == {}
    {
      head, tail, index := null, null, map[];
      nodes, items, repr := [], [], {};
    }

    method LinkFront(entry: Entry<K, V>)
      requires Linked(nodes, head, tail) && Distinct(nodes) && entry !in nodes
      requires entry.prev == null && entry.next == head
      modifies `head, `tail, nodes
      ensures Linked(nodes + [entry], head, tail)
    {
      if head != null {
        head.prev := entry;
      } else {
        tail := entry;
      }
      head := entry;
    }

    method LinkBack(entry: Entry<K, V>)
      requires Linked(nodes, head, tail) && Distinct(nodes) && entry !in nodes
      requires entry.next == null && entry.prev == tail
      modifies `head, `tail, nodes
      ensures Linked([entry] + nodes, head, tail)
    {
      if tail != null {
        tail.next := entry;
      } else {
        head := entry;
      }
      tail := entry;
    }

    method Unlink(entry: Entry<K, V>, ghost k: nat)
      requires Linked(nodes, head, tail) && Distinct(nodes) && k < |nodes| && nodes[k] == entry
      modifies `head, `tail, nodes
      ensures Linked(nodes[..k] + nodes[k + 1..], head, tail)
    {
      if entry.prev != null {
        entry.prev.next := entry.next;
      } else {
        head := entry.next;
      }
      if entry.next != null {
        entry.next.prev := entry.prev;
      } else {
        tail := entry.prev;
      }
      LinkedWithout(nodes, k, head, tail);
    }

    method UnlinkBack(last: Entry<K, V>)
      requires Linked(nodes, head, tail) && Distinct(nodes) && nodes != [] && last == tail
      modifies `head, `tail, nodes
      ensures Linked(nodes[..0] + nodes[1..], head, tail)
    {
      tail := last.prev;
      if last.prev != null {
        last.prev.next := null;
      } else {
        head := null;
      }
      LinkedWithout(nodes, 0, head, tail);
    }

    /** Inserting a key that is already present would panic. */
    method PushFront(key: K, value: V)
      requires Valid() && !HasKey(items, key)
      modifies this, repr
      ensures Valid() && items == old(items) + [(key, value)]
      ensures fresh(repr - old(repr))
    {
      hide Linked, Indexed;
      NodesDistinct(nodes, items, index);
      IndexLookup(nodes, items, index, key);
      var entry := new Entry(key, value, null, head);
      IndexInsert(nodes, items, index, entry);
      LinkFront(entry);
      index := index[key := entry];
      nodes, items, repr := nodes + [entry], items + [(key, value)], repr + {entry};
    }

    method PushBack(key: K, value: V)
      requires Valid() && !HasKey(items, key)
      modifies this, repr
      ensures Valid() && items == [(key, value)] + old(items)
      ensures fresh(repr - old(repr))
    {
      hide Linked, Indexed;
      NodesDistinct(nodes, items, index);
      IndexLookup(nodes, items, index, key);
      var entry := new Entry(key, value, tail, null);
      IndexInsert(nodes, items, index, entry);
      LinkBack(entry);
      index := index[key := entry];
      nodes, items, repr := [entry] + nodes, [(key, value)] + items, repr + {entry};
    }

    method PopBack() returns (r: Option<(K, V)>)
      requires Valid()
      modifies this, repr
      ensures Valid()
      ensures old(items) == [] ==> r == None && items == []
      ensures old(items) != [] ==> r == Some(old(items)[0]) && items == old(items)[1..]
      ensures fresh(repr - old(repr))
    {
      hide Linked, Indexed;
      TailOfChain(nodes, head, tail);
      ItemOfNode(nodes, items, index, 0);
      if tail == null {
        return None;
      }
      NodesDistinct(nodes, items, index);
      IndexRemove(nodes, items, index, 0);
      var last := tail;
      UnlinkBack(last);
      index := index - {last.key};
      nodes, items := nodes[..0] + nodes[1..], items[..0] + items[1..];
      r := Some((last.key, last.value));
    }

    method Remove(key: K) returns (r: Option<V>)
      requires Valid()
      modifies this, repr
      ensures Valid() && items == Delete(old(items), key)
      ensures r.Some? <==> HasKey(old(items), key)
      ensures r.Some? ==> (key, r.value) in old(items)
      ensures fresh(repr - old(repr))
    {
      hide Linked, Indexed;
      IndexLookup(nodes, items, index, key);
      if key !in index {
        DeleteAbsent(items, key);
        return None;
      }
      var entry := index[key];
      ghost var k: nat :| k < |nodes| && nodes[k] == entry;
      NodesDistinct(nodes, items, index);
      ItemOfNode(nodes, items, index, k);
      IndexRemove(nodes, items, index, k);
      DeleteAt(items, k);
      Unlink(entry, k);
      index := index - {key};
      nodes, items := nodes[..k] + nodes[k + 1..], items[..k] + items[k + 1..];
      r := Some(entry.value);
    }

    function Len(): (n: nat)
      requires Valid()
      reads this, repr
      ensures n == |items|
    {
      |index|
    }

    predicate Contains(key: K)
      requires Valid()
      reads this, repr
      ensures Contains(key) <==> HasKey(items, key)
    {
      IndexLookup(nodes, items, index, key);
      key in index
    }
  }
}
