/** The mempool proper: a queue of fragments, an expiry-ordered set and a byte total. */
module Pool {
  import opened Base
  import opened IndexedDeque
  import OrderedSet

  /** Every kind other than the three named ones carries a transaction. */
  datatype Kind = Initial | OldUtxoDeclaration | Evm | Transactional

  datatype Fragment = Fragment(kind: Kind, size: nat, validUntil: BlockDate, balanced: bool, body: nat)

  type Pooled = (FragmentId, Fragment)

  function ExpiryDate(f: Fragment): (r: Option<BlockDate>)
    ensures r == None <==> f.kind in {Initial, OldUtxoDeclaration, Evm}
    ensures r.Some? ==> r.value == f.validUntil
  {
    if f.kind.Transactional? then Some(f.validUntil) else None
  }

  datatype TimeoutItem = TimeoutItem(validUntil: BlockDate, id: FragmentId)

  predicate ItemBefore(a: TimeoutItem, b: TimeoutItem) {
    if a.validUntil != b.validUntil then a.validUntil.Before(b.validUntil) else a.id < b.id
  }

  lemma ItemOrder()
    ensures OrderedSet.StrictOrder(ItemBefore)
  {
  }

  ghost function TotalSize(queue: seq<Pooled>): nat {
    if queue == [] then 0 else queue[0].1.size + TotalSize(queue[1..])
  }

  ghost function Timeout(p: Pooled): set<TimeoutItem> {
    match ExpiryDate(p.1)
    case None => {}
    case Some(date) => {TimeoutItem(date, p.0)}
  }

  ghost predicate InTimeouts(queue: seq<Pooled>, t: TimeoutItem) {
    exists p :: p in queue && t in Timeout(p)
  }

  /** The expiry-ordered set and the byte total say what the queue says. */
  ghost predicate Views(queue: seq<Pooled>, timeouts: seq<TimeoutItem>, total: nat) {
    && DistinctKeys(queue)
    && total == TotalSize(queue)
    && OrderedSet.Sorted(timeouts, ItemBefore)
    && (forall t :: t in timeouts <==> InTimeouts(queue, t))
  }

  function TimeoutInsert(timeouts: seq<TimeoutItem>, p: Pooled): seq<TimeoutItem> {
    match ExpiryDate(p.1)
    case None => timeouts
    case Some(date) => OrderedSet.Insert(timeouts, TimeoutItem(date, p.0), ItemBefore)
  }

  function TimeoutRemove(timeouts: seq<TimeoutItem>, p: Pooled): seq<TimeoutItem> {
    match ExpiryDate(p.1)
    case None => timeouts
    case Some(date) => OrderedSet.Remove(timeouts, TimeoutItem(date, p.0))
  }

  lemma {:induction false} TotalSizeAppend(queue: seq<Pooled>, p: Pooled)
    ensures TotalSize(queue + [p]) == TotalSize(queue) + p.1.size
  {
    if queue != [] {
      assert (queue + [p])[1..] == queue[1..] + [p];
      TotalSizeAppend(queue[1..], p);
    }
  }

  lemma {:induction false} TotalSizeDelete(queue: seq<Pooled>, p: Pooled)
    requires p in queue && DistinctKeys(queue)
    ensures TotalSize(queue) == TotalSize(Delete(queue, p.0)) + p.1.size
  {
    if queue[0].0 == p.0 {
      assert queue[0] == p;
    } else {
      TotalSizeDelete(queue[1..], p);
      assert Delete(queue, p.0)[1..] == Delete(queue[1..], p.0);
    }
  }

  lemma {:induction false} DeleteKeepsOthers(queue: seq<Pooled>, id: FragmentId)
    requires DistinctKeys(queue)
    ensures DistinctKeys(Delete(queue, id))
    ensures forall p :: p in Delete(queue, id) <==> p in queue && p.0 != id
    ensures |Delete(queue, id)| <= |queue|
  {
    if queue != [] {
      assert queue == [queue[0]] + queue[1..];
      if queue[0].0 != id {
        DeleteKeepsOthers(queue[1..], id);
        var rest := Delete(queue[1..], id);
        assert forall i :: 0 <= i < |rest| ==> rest[i] in rest;
      }
    }
  }

  lemma ViewsAdd(queue: seq<Pooled>, timeouts: seq<TimeoutItem>, total: nat, p: Pooled, queue': seq<Pooled>)
    requires Views(queue, timeouts, total) && !HasKey(queue, p.0)
    requires queue' == queue + [p] || queue' == [p] + queue
    ensures Views(queue', TimeoutInsert(timeouts, p), total + p.1.size)
  {
    hide OrderedSet.Insert, OrderedSet.StrictOrder;
    TotalSizeAppend(queue, p);
    assert ([p] + queue)[1..] == queue;
    ItemOrder();
    if ExpiryDate(p.1).Some? {
      OrderedSet.InsertIntoSorted(timeouts, TimeoutItem(ExpiryDate(p.1).value, p.0), ItemBefore);
    }
    assert forall q :: q in queue' <==> q in queue || q == p;
    forall t
      ensures InTimeouts(queue', t) <==> InTimeouts(queue, t) || t in Timeout(p)
    {
      if t in Timeout(p) {
        assert p in queue';
      }
      if InTimeouts(queue, t) {
        var q :| q in queue && t in Timeout(q);
        assert q in queue';
      }
    }
  }

  /** The expiry-ordered set of a queue, filled one fragment at a time. */
  function ExpiryList(queue: seq<Pooled>): seq<TimeoutItem> {
    if queue == [] then [] else TimeoutInsert(ExpiryList(queue[1..]), queue[0])
  }

  lemma {:induction false} ExpiryListViews(queue: seq<Pooled>)
    requires DistinctKeys(queue)
    ensures Views(queue, ExpiryList(queue), TotalSize(queue))
  {
    hide TimeoutInsert;
    if queue != [] {
      ExpiryListViews(queue[1..]);
      assert queue == [queue[0]] + queue[1..];
      ViewsAdd(queue[1..], ExpiryList(queue[1..]), TotalSize(queue[1..]), queue[0], queue);
    }
  }

  /** The queue alone determines the other two views. */
  lemma ViewsDetermined(queue: seq<Pooled>, timeouts: seq<TimeoutItem>, total: nat)
    requires Views(queue, timeouts, total)
    ensures timeouts == ExpiryList(queue) && total == TotalSize(queue)
  {
    hide ExpiryList, OrderedSet.StrictOrder;
    ItemOrder();
    ExpiryListViews(queue);
    OrderedSet.SortedIsUnique(timeouts, ExpiryList(queue), ItemBefore);
  }

  lemma ViewsRemove(queue: seq<Pooled>, timeouts: seq<TimeoutItem>, total: nat, p: Pooled)
    requires Views(queue, timeouts, total) && p in queue
    ensures p.1.size <= total
    ensures Views(Delete(queue, p.0), TimeoutRemove(timeouts, p), total - p.1.size)
  {
    hide OrderedSet.Remove, OrderedSet.StrictOrder;
    TotalSizeDelete(queue, p);
    DeleteKeepsOthers(queue, p.0);
    ItemOrder();
    if ExpiryDate(p.1).Some? {
      OrderedSet.RemoveFromSorted(timeouts, TimeoutItem(ExpiryDate(p.1).value, p.0), ItemBefore);
    }
    forall q | q in queue && q.0 == p.0
      ensures q == p
    {
    }
  }

  /** What `insert_all` takes from a batch while room lasts, and what it leaves unread. */
  function Admit(queue: seq<Pooled>, batch: seq<Pooled>, room: nat): (seq<Pooled>, seq<Pooled>)
    decreases |batch|
  {
    if room == 0 || batch == [] then ([], batch)
    else if HasKey(queue, batch[0].0) then Admit(queue, batch[1..], room)
    else
      var (taken, unread) := Admit(queue + [batch[0]], batch[1..], room - 1);
      ([batch[0]] + taken, unread)
  }

  lemma AdmitNothing(queue: seq<Pooled>, batch: seq<Pooled>, room: nat)
    requires room == 0 || batch == []
    ensures Admit(queue, batch, room) == ([], batch)
  {
  }

  /** One fragment of a batch, while there is room. */
  lemma AdmitNext(queue: seq<Pooled>, batch: seq<Pooled>, i: nat, room: nat)
    requires i < |batch| && room > 0
    ensures Admit(queue, batch[i..], room) ==
            if HasKey(queue, batch[i].0) then Admit(queue, batch[i + 1..], room)
            else
              var (taken, unread) := Admit(queue + [batch[i]], batch[i + 1..], room - 1);
              ([batch[i]] + taken, unread)
  {
    assert batch[i..][1..] == batch[i + 1..];
  }

  function DeleteAll(queue: seq<Pooled>, ids: seq<FragmentId>): seq<Pooled>
    decreases |ids|
  {
    if ids == [] then queue else DeleteAll(Delete(queue, ids[0]), ids[1..])
  }

  lemma DeleteNext(queue: seq<Pooled>, ids: seq<FragmentId>, i: nat)
    requires i <= |ids|
    ensures DeleteAll(queue, ids[i..]) == if i == |ids| then queue else DeleteAll(Delete(queue, ids[i]), ids[i + 1..])
  {
    assert i < |ids| ==> ids[i..][1..] == ids[i + 1..];
  }

  function Retain(queue: seq<Pooled>, p: Pooled -> bool): seq<Pooled> {
    if queue == [] then []
    else (if p(queue[0]) then [queue[0]] else []) + Retain(queue[1..], p)
  }

  predicate Expired(p: Pooled, date: BlockDate) {
    ExpiryDate(p.1).Some? && ExpiryDate(p.1).value.Before(date)
  }

  ghost predicate ExpiredId(queue: seq<Pooled>, id: FragmentId, date: BlockDate) {
    exists p :: p in queue && p.0 == id && Expired(p, date)
  }

  /** Only transactions expire, and strictly after the date up to which they are valid. */
  lemma ExpiredIff(p: Pooled, date: BlockDate)
    ensures Expired(p, date) <==>
            p.1.kind.Transactional? && IsLater(date, p.1.validUntil)
  {
  }

  lemma {:induction false} DeleteIsRetain(queue: seq<Pooled>, id: FragmentId, p: Pooled -> bool, p': Pooled -> bool)
    requires DistinctKeys(queue)
    requires forall x :: x in queue ==> (p(x) <==> p'(x) && x.0 != id)
    ensures Retain(Delete(queue, id), p') == Retain(queue, p)
  {
    if queue == [] {
    } else if queue[0].0 == id {
      forall x | x in queue[1..]
        ensures x.0 != id
      {
      }
      RetainSame(queue[1..], p, p');
    } else {
      DeleteIsRetain(queue[1..], id, p, p');
      assert Delete(queue, id)[1..] == Delete(queue[1..], id);
    }
  }

  lemma {:induction false} RetainSame(queue: seq<Pooled>, p: Pooled -> bool, p': Pooled -> bool)
    requires forall x :: x in queue ==> (p(x) <==> p'(x))
    ensures Retain(queue, p) == Retain(queue, p')
  {
    if queue != [] {
      RetainSame(queue[1..], p, p');
    }
  }

  lemma {:induction false} RetainEverything(queue: seq<Pooled>, p: Pooled -> bool)
    requires forall x :: x in queue ==> p(x)
    ensures Retain(queue, p) == queue
  {
    if queue != [] {
      RetainEverything(queue[1..], p);
    }
  }

  /** Deleting ids one by one keeps exactly the other fragments, in their order. */
  lemma {:induction false} DeleteAllIsRetain(queue: seq<Pooled>, ids: seq<FragmentId>)
    requires DistinctKeys(queue)
    ensures DeleteAll(queue, ids) == Retain(queue, (x: Pooled) => x.0 !in ids)
    decreases |ids|
  {
    if ids == [] {
      RetainEverything(queue, (x: Pooled) => x.0 !in ids);
    } else {
      var rest := Delete(queue, ids[0]);
      DeleteKeepsOthers(queue, ids[0]);
      DeleteAllIsRetain(rest, ids[1..]);
      DeleteIsRetain(queue, ids[0], (x: Pooled) => x.0 !in ids, (x: Pooled) => x.0 !in ids[1..]);
    }
  }

  class Pool {
    const entries: Deque<FragmentId, Fragment>
    var timeoutQueue: seq<TimeoutItem>
    const maxEntries: nat
    var totalSizeBytes: nat

    ghost predicate Valid()
      reads this, entries, entries.repr
    {
      && entries.Valid()
      && Views(entries.items, timeoutQueue, totalSizeBytes)
      && |entries.items| <= maxEntries
    }

    /** The pooled fragments, oldest first. */
    ghost function Queue(): seq<Pooled>
      reads this, entries
    {
      entries.items
    }

    constructor (maxEntries: nat)
      ensures Valid() && Queue() == [] && this.maxEntries == maxEntries
      ensures fresh(entries) && entries.repr == {}
    {
      this.maxEntries := maxEntries;
      entries := new Deque();
      timeoutQueue, totalSizeBytes := [], 0;
    }

    /** Records a fragment at the newest end. */
    method PushNewest(p: Pooled)
      requires Valid() && !HasKey(Queue(), p.0) && |Queue()| < maxEntries
      modifies this, entries, entries.repr
      ensures Valid() && Queue() == old(Queue()) + [p]
      ensures fresh(entries.repr - old(entries.repr))
    {
      hide Linked, Indexed, Views, TimeoutInsert;
      ViewsAdd(entries.items, timeoutQueue, totalSizeBytes, p, entries.items + [p]);
      totalSizeBytes := totalSizeBytes + p.1.size;
      timeoutQueue := TimeoutInsert(timeoutQueue, p);
      entries.PushFront(p.0, p.1);
    }

    /** Reads the batch until it is used up or the pool is full. */
    method InsertAll(batch: seq<Pooled>) returns (inserted: seq<Pooled>, unread: seq<Pooled>)
      requires Valid()
      modifies this, entries, entries.repr
      ensures Valid() && Queue() == old(Queue()) + inserted
      ensures (inserted, unread) == Admit(old(Queue()), batch, maxEntries - |old(Queue())|)
      ensures fresh(entries.repr - old(entries.repr))
    {
      hide Linked, Indexed, Views, Admit, HasKey;
      var room := maxEntries - entries.Len();
      var i := 0;
      inserted := [];
      assert batch[0..] == batch;
      while |inserted| < room && i < |batch|
        invariant 0 <= i <= |batch| && |inserted| <= room
        invariant Valid() && Queue() == old(Queue()) + inserted
        invariant Admit(old(Queue()), batch, room).0 == inserted + Admit(Queue(), batch[i..], room - |inserted|).0
        invariant Admit(old(Queue()), batch, room).1 == Admit(Queue(), batch[i..], room - |inserted|).1
        invariant fresh(entries.repr - old(entries.repr))
      {
        AdmitNext(Queue(), batch, i, room - |inserted|);
        if !entries.Contains(batch[i].0) {
          PushNewest(batch[i]);
          inserted := inserted + [batch[i]];
        }
        i := i + 1;
      }
      unread := batch[i..];
      AdmitNothing(Queue(), unread, room - |inserted|);
      assert inserted + [] == inserted;
    }

    method RemoveAll(ids: seq<FragmentId>)
      requires Valid()
      modifies this, entries, entries.repr
      ensures Valid() && Queue() == Retain(old(Queue()), (x: Pooled) => x.0 !in ids)
      ensures fresh(entries.repr - old(entries.repr))
    {
      DeleteAllIsRetain(entries.items, ids);
      hide Linked, Indexed, Views, Retain;
      for i := 0 to |ids|
        invariant Valid()
        invariant DeleteAll(old(Queue()), ids) == DeleteAll(Queue(), ids[i..])
        invariant fresh(entries.repr - old(entries.repr))
      {
        assert ids[i..][1..] == ids[i + 1..];
        RemoveOne(ids[i]);
      }
    }

    /** Takes one fragment out of the three views, if it is pooled. */
    method RemoveOne(id: FragmentId)
      requires Valid()
      modifies this, entries, entries.repr
      ensures Valid() && Queue() == Delete(old(Queue()), id)
      ensures fresh(entries.repr - old(entries.repr))
    {
      hide Linked, Indexed, Views, TimeoutRemove, Delete;
      ViewsDistinct(entries.items, timeoutQueue, totalSizeBytes);
      DeleteKeepsOthers(entries.items, id);
      ghost var before := entries.items;
      var removed := entries.Remove(id);
      if removed.Some? {
        ViewsRemove(before, timeoutQueue, totalSizeBytes, (id, removed.value));
        timeoutQueue := TimeoutRemove(timeoutQueue, (id, removed.value));
        totalSizeBytes := totalSizeBytes - removed.value.size;
      } else {
        DeleteAbsent(before, id);
      }
    }

    method RemoveOldest() returns (r: Option<Pooled>)
      requires Valid()
      modifies this, entries, entries.repr
      ensures Valid()
      ensures old(Queue()) == [] ==> r == None && Queue() == []
      ensures old(Queue()) != [] ==> r == Some(old(Queue())[0]) && Queue() == old(Queue())[1..]
      ensures fresh(entries.repr - old(entries.repr))
    {
      hide Linked, Indexed, Views, TimeoutRemove;
      ghost var before := entries.items;
      r := entries.PopBack();
      if r.Some? {
        ViewsRemove(before, timeoutQueue, totalSizeBytes, r.value);
        timeoutQueue := TimeoutRemove(timeoutQueue, r.value);
        totalSizeBytes := totalSizeBytes - r.value.1.size;
      }
    }

    /** Puts fragments back at the oldest end, the last one given becoming the oldest. */
    method ReturnToPool(fragments: seq<Pooled>)
      requires Valid() && |Queue()| + |fragments| <= maxEntries
      requires DistinctKeys(fragments) && forall p :: p in fragments ==> !HasKey(Queue(), p.0)
      modifies this, entries, entries.repr
      ensures Valid() && Queue() == Reversed(fragments) + old(Queue())
      ensures fresh(entries.repr - old(entries.repr))
    {
      hide Linked, Indexed, Views, TimeoutInsert;
      for i := 0 to |fragments|
        invariant Valid() && Queue() == Reversed(fragments[..i]) + old(Queue())
        invariant fresh(entries.repr - old(entries.repr))
      {
        var p := fragments[i];
        ReversedKeys(fragments[..i], p.0);
        ViewsAdd(entries.items, timeoutQueue, totalSizeBytes, p, [p] + entries.items);
        timeoutQueue := TimeoutInsert(timeoutQueue, p);
        totalSizeBytes := totalSizeBytes + p.1.size;
        entries.PushBack(p.0, p.1);
        assert fragments[..i + 1] == fragments[..i] + [p];
      }
      assert fragments == fragments[..|fragments|];
    }

    /** Walks the expiry-ordered set only as far as the first date that has not passed. */
    method RemoveExpired(date: BlockDate) returns (ids: seq<FragmentId>)
      requires Valid()
      modifies this, entries, entries.repr
      ensures Valid() && Queue() == Retain(old(Queue()), (p: Pooled) => !Expired(p, date))
      ensures forall id :: id in ids <==> ExpiredId(old(Queue()), id, date)
      ensures ids == ExpiredInOrder(old(Queue()), date)
      ensures fresh(entries.repr - old(entries.repr))
    {
      hide Linked, Indexed, Views, Retain, ExpiryList, OrderedSet.TakeWhile, Delete, DeleteAll, DistinctKeys, Expired,
           ExpiredId;
      var items := OrderedSet.TakeWhile(timeoutQueue, (t: TimeoutItem) => t.validUntil.Before(date));
      ids := Ids(items);
      ViewsDistinct(entries.items, timeoutQueue, totalSizeBytes);
      ViewsDetermined(entries.items, timeoutQueue, totalSizeBytes);
      ExpiredPrefix(entries.items, timeoutQueue, totalSizeBytes, date, items);
      ExpiredIds(entries.items, items, date);
      assert ids[0..] == ids;
      for i := 0 to |items|
        invariant Valid()
        invariant DeleteAll(old(Queue()), ids[0..]) == DeleteAll(Queue(), ids[i..])
        invariant forall j :: i <= j < |items| ==> items[j] in timeoutQueue
        invariant fresh(entries.repr - old(entries.repr))
      {
        DeleteNext(Queue(), ids, i);
        Expire(items[i]);
      }
      DeleteNext(Queue(), ids, |ids|);
    }

    /** Takes out one entry of the expiry-ordered set and the fragment it stands for. */
    method Expire(item: TimeoutItem)
      requires Valid() && item in timeoutQueue
      modifies this, entries, entries.repr
      ensures Valid() && Queue() == Delete(old(Queue()), item.id)
      ensures forall t :: t in old(timeoutQueue) && t != item ==> t in timeoutQueue
      ensures fresh(entries.repr - old(entries.repr))
    {
      hide Linked, Indexed, Views, TimeoutRemove, Delete;
      ghost var before, timeouts := entries.items, timeoutQueue;
      ExpiredKey(before, timeouts, totalSizeBytes, item);
      DeleteKeepsOthers(before, item.id);
      timeoutQueue := OrderedSet.Remove(timeoutQueue, item);
      var removed := entries.Remove(item.id);
      if removed.Some? {
        ExpiredEntry(before, timeouts, totalSizeBytes, item, removed.value);
        ViewsRemove(before, timeouts, totalSizeBytes, (item.id, removed.value));
        totalSizeBytes := totalSizeBytes - removed.value.size;
      }
    }
  }

  function Reversed<T>(s: seq<T>): (r: seq<T>)
    ensures |r| == |s| && forall i :: 0 <= i < |s| ==> r[i] == s[|s| - 1 - i]
  {
    if s == [] then [] else [s[|s| - 1]] + Reversed(s[..|s| - 1])
  }

  lemma ReversedKeys(s: seq<Pooled>, id: FragmentId)
    ensures HasKey(Reversed(s), id) <==> HasKey(s, id)
  {
    if HasKey(s, id) {
      var i :| 0 <= i < |s| && s[i].0 == id;
      assert Reversed(s)[|s| - 1 - i].0 == id;
    }
  }

  lemma ViewsDistinct(queue: seq<Pooled>, timeouts: seq<TimeoutItem>, total: nat)
    requires Views(queue, timeouts, total)
    ensures DistinctKeys(queue)
  {
  }

  lemma ExpiredKey(queue: seq<Pooled>, timeouts: seq<TimeoutItem>, total: nat, item: TimeoutItem)
    requires Views(queue, timeouts, total) && item in timeouts
    ensures DistinctKeys(queue) && HasKey(queue, item.id)
    ensures forall t :: t in timeouts && t != item ==> t in OrderedSet.Remove(timeouts, item)
  {
    assert InTimeouts(queue, item);
    ItemOrder();
    OrderedSet.RemoveFromSorted(timeouts, item, ItemBefore);
  }

  lemma ExpiredEntry(queue: seq<Pooled>, timeouts: seq<TimeoutItem>, total: nat, item: TimeoutItem, f: Fragment)
    requires Views(queue, timeouts, total) && item in timeouts && (item.id, f) in queue
    ensures TimeoutRemove(timeouts, (item.id, f)) == OrderedSet.Remove(timeouts, item)
  {
    assert InTimeouts(queue, item);
    var p :| p in queue && item in Timeout(p);
    assert p == (item.id, f);
  }

  /** The prefix of the expiry order that has passed names exactly the expired fragments. */
  lemma ExpiredPrefix(queue: seq<Pooled>, timeouts: seq<TimeoutItem>, total: nat, date: BlockDate,
                      items: seq<TimeoutItem>)
    requires Views(queue, timeouts, total)
    requires items == OrderedSet.TakeWhile(timeouts, (t: TimeoutItem) => t.validUntil.Before(date))
    ensures forall p :: p in queue && Expired(p, date) ==> TimeoutItem(p.1.validUntil, p.0) in items
    ensures forall t :: t in items ==> ExpiredId(queue, t.id, date)
    ensures OrderedSet.Sorted(items, ItemBefore) && forall t :: t in items ==> t in timeouts
  {
    hide OrderedSet.TakeWhile;
    OrderedSet.TakeWhileIsFilter(timeouts, (t: TimeoutItem) => t.validUntil.Before(date), ItemBefore);
    forall p | p in queue && Expired(p, date)
      ensures TimeoutItem(p.1.validUntil, p.0) in items
    {
      var t := TimeoutItem(p.1.validUntil, p.0);
      assert t in Timeout(p) && InTimeouts(queue, t);
    }
    forall t | t in items
      ensures ExpiredId(queue, t.id, date)
    {
      assert InTimeouts(queue, t);
    }
  }

  /** The expiry order: by date, and by id on the same date. */
  lemma ExpiryListOrder(queue: seq<Pooled>, i: nat, j: nat)
    requires DistinctKeys(queue) && i < j < |ExpiryList(queue)|
    ensures var a, b := ExpiryList(queue)[i], ExpiryList(queue)[j];
            IsLater(b.validUntil, a.validUntil) || (a.validUntil == b.validUntil && a.id < b.id)
  {
    hide ExpiryList;
    ExpiryListViews(queue);
  }

  /** The ids of the expired fragments, the longest expired first. */
  function ExpiredInOrder(queue: seq<Pooled>, date: BlockDate): seq<FragmentId> {
    Ids(OrderedSet.TakeWhile(ExpiryList(queue), (t: TimeoutItem) => t.validUntil.Before(date)))
  }

  function Ids(items: seq<TimeoutItem>): (ids: seq<FragmentId>)
    ensures |ids| == |items| && forall i :: 0 <= i < |ids| ==> ids[i] == items[i].id
  {
    seq(|items|, i requires 0 <= i < |items| => items[i].id)
  }

  lemma ExpiredIds(queue: seq<Pooled>, items: seq<TimeoutItem>, date: BlockDate)
    requires DistinctKeys(queue)
    requires forall p :: p in queue && Expired(p, date) ==> TimeoutItem(p.1.validUntil, p.0) in items
    requires forall t :: t in items ==> ExpiredId(queue, t.id, date)
    ensures forall id :: id in Ids(items) <==> ExpiredId(queue, id, date)
    ensures DeleteAll(queue, Ids(items)) == Retain(queue, (p: Pooled) => !Expired(p, date))
  {
    hide Delete, DeleteAll, Retain;
    var ids := Ids(items);
    forall p | p in queue && Expired(p, date)
      ensures p.0 in ids
    {
      var i :| 0 <= i < |items| && items[i] == TimeoutItem(p.1.validUntil, p.0);
      assert ids[i] == p.0;
    }
    forall id | id in ids
      ensures ExpiredId(queue, id, date)
    {
      var i :| 0 <= i < |ids| && ids[i] == id;
      assert items[i] in items;
    }
    DeleteAllIsRetain(queue, ids);
    RetainSame(queue, (x: Pooled) => x.0 !in ids, (p: Pooled) => !Expired(p, date));
  }
}
