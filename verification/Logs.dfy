/** The fragment status log: an LRU cache, held in most-recently-used order. */
module Logs {
  import opened Base

  datatype Origin = Network | Rest | JRpc

  datatype Status = Pending | Rejected(reason: string) | InABlock(date: BlockDate, block: HeaderHash)

  datatype FragmentLog = FragmentLog(id: FragmentId, origin: Origin, status: Status) {
    /** An update that would take a fragment back out of its block is refused. */
    predicate Accepts(newStatus: Status) {
      !(status.InABlock? && !newStatus.InABlock?)
    }
  }

  datatype Entry = Entry(log: FragmentLog, date: Option<BlockDate>) {
    predicate Finished() {
      !log.status.Pending?
    }

    predicate LaterThan(target: BlockDate) {
      Finished() && date.Some? && target.Before(date.value)
    }
  }

  predicate HasId(entries: seq<Entry>, id: FragmentId) {
    exists i :: 0 <= i < |entries| && entries[i].log.id == id
  }

  ghost predicate DistinctIds(entries: seq<Entry>) {
    forall i, j :: 0 <= i < j < |entries| ==> entries[i].log.id != entries[j].log.id
  }

  ghost predicate Dated(entries: seq<Entry>) {
    forall i :: 0 <= i < |entries| && entries[i].Finished() ==> entries[i].date.Some?
  }

  ghost predicate WellFormed(entries: seq<Entry>, capacity: nat) {
    DistinctIds(entries) && Dated(entries) && |entries| <= capacity
  }

  function Without(entries: seq<Entry>, id: FragmentId): (r: seq<Entry>) {
    if entries == [] then []
    else if entries[0].log.id == id then entries[1..]
    else [entries[0]] + Without(entries[1..], id)
  }

  function Lookup(entries: seq<Entry>, id: FragmentId): (e: Entry)
    requires HasId(entries, id)
    ensures e in entries && e.log.id == id
  {
    if entries[0].log.id == id then entries[0]
    else
      assert exists i :: 0 <= i < |entries[1..]| && entries[1..][i].log.id == id by {
        var i :| 0 <= i < |entries| && entries[i].log.id == id;
        assert entries[1..][i - 1].log.id == id;
      }
      Lookup(entries[1..], id)
  }

  /** A new entry becomes the most recently used one; past the capacity the oldest use is evicted. */
  function Put(entries: seq<Entry>, e: Entry, capacity: nat): (r: seq<Entry>) {
    var grown := [e] + entries;
    if |grown| <= capacity then grown else grown[..capacity]
  }

  function InsertPending(entries: seq<Entry>, log: FragmentLog, capacity: nat): (r: seq<Entry>) {
    if HasId(entries, log.id) then entries else Put(entries, Entry(log, None), capacity)
  }

  function Modify(entries: seq<Entry>, id: FragmentId, status: Status, date: BlockDate, capacity: nat)
    : (r: seq<Entry>)
  {
    if HasId(entries, id) then
      var e := Lookup(entries, id);
      var e' := if e.log.Accepts(status) then Entry(e.log.(status := status), Some(date)) else e;
      [e'] + Without(entries, id)
    else
      Put(entries, Entry(FragmentLog(id, Network, status), Some(date)), capacity)
  }

  function ModifyAll(entries: seq<Entry>, ids: seq<FragmentId>, status: Status, date: BlockDate, capacity: nat)
    : (r: seq<Entry>)
    decreases |ids|
  {
    if ids == [] then entries
    else ModifyAll(Modify(entries, ids[0], status, date, capacity), ids[1..], status, date, capacity)
  }

  /** The scan in most-recently-used order, stopping at the first finished entry that is not later. */
  function Prune(entries: seq<Entry>, target: BlockDate): (r: seq<Entry>) {
    if entries == [] then []
    else if !entries[0].Finished() then [entries[0]] + Prune(entries[1..], target)
    else if entries[0].LaterThan(target) then Prune(entries[1..], target)
    else entries
  }

  /** Every finished entry later than the branch point is dropped, all others are kept. */
  function KeepNotLater(entries: seq<Entry>, target: BlockDate): (r: seq<Entry>) {
    if entries == [] then []
    else (if entries[0].LaterThan(target) then [] else [entries[0]]) + KeepNotLater(entries[1..], target)
  }

  predicate Hiding(a: Entry, b: Entry, target: BlockDate) {
    a.Finished() && !a.LaterThan(target) && b.LaterThan(target)
  }

  /** A finished entry that is not later hides a later one behind it. */
  ghost predicate Hides(entries: seq<Entry>, target: BlockDate) {
    exists i, j :: 0 <= i < j < |entries| && Hiding(entries[i], entries[j], target)
  }

  ghost predicate DatesNonincreasing(entries: seq<Entry>) {
    forall i, j :: 0 <= i < j < |entries| ==> !Older(entries[i], entries[j])
  }

  predicate Older(a: Entry, b: Entry) {
    a.Finished() && b.Finished() && a.date.Some? && b.date.Some? && a.date.value.Before(b.date.value)
  }

  /** What is later: an entry that was rejected or put in a block at a later date. */
  lemma LaterIff(e: Entry, target: BlockDate)
    ensures e.LaterThan(target) <==>
            (e.log.status.Rejected? || e.log.status.InABlock?) && e.date.Some? && IsLater(e.date.value, target)
    ensures e.Finished() <==> e.log.status.Rejected? || e.log.status.InABlock?
  {
  }

  lemma {:induction false} KeepsAll(entries: seq<Entry>, target: BlockDate)
    ensures KeepNotLater(entries, target) == entries <==> forall e :: e in entries ==> !e.LaterThan(target)
    ensures |KeepNotLater(entries, target)| <= |entries|
  {
    if entries != [] {
      KeepsAll(entries[1..], target);
      assert entries == [entries[0]] + entries[1..];
    }
  }

  /** An entry at the front hides a later one, or the others do. */
  lemma HidesFirst(entries: seq<Entry>, target: BlockDate)
    requires entries != []
    ensures Hides(entries, target) <==>
            Hides(entries[1..], target) || exists e :: e in entries[1..] && Hiding(entries[0], e, target)
  {
    hide Hiding;
    var rest := entries[1..];
    if Hides(entries, target) {
      var i, j :| 0 <= i < j < |entries| && Hiding(entries[i], entries[j], target);
      assert rest[j - 1] == entries[j] && (i > 0 ==> rest[i - 1] == entries[i]);
      assert rest[j - 1] in rest;
    }
    if Hides(rest, target) {
      var i, j :| 0 <= i < j < |rest| && Hiding(rest[i], rest[j], target);
      assert entries[i + 1] == rest[i] && entries[j + 1] == rest[j];
    }
    if exists e :: e in rest && Hiding(entries[0], e, target) {
      var e :| e in rest && Hiding(entries[0], e, target);
      var j :| 0 <= j < |rest| && rest[j] == e;
      assert entries[j + 1] == e;
    }
  }

  /** Nothing can be hidden where nothing is later. */
  lemma NothingToHide(entries: seq<Entry>, target: BlockDate)
    requires forall e :: e in entries ==> !e.LaterThan(target)
    ensures !Hides(entries, target)
  {
  }

  /** The early stop drops exactly the later entries if and only if no later entry is hidden. */
  lemma {:induction false} PruneExactly(entries: seq<Entry>, target: BlockDate)
    requires Dated(entries)
    ensures Prune(entries, target) == KeepNotLater(entries, target) <==> !Hides(entries, target)
  {
    hide Hides;
    if entries == [] {
      NothingToHide(entries, target);
    } else {
      HidesFirst(entries, target);
      if entries[0].Finished() && !entries[0].LaterThan(target) {
        KeepsAll(entries, target);
        assert entries == [entries[0]] + entries[1..];
        if forall e :: e in entries ==> !e.LaterThan(target) {
          NothingToHide(entries, target);
        } else {
          var e :| e in entries && e.LaterThan(target);
          assert e in entries[1..] && Hiding(entries[0], e, target);
        }
      } else {
        PruneExactly(entries[1..], target);
      }
    }
  }

  /** Pruning is exact for every branch point if and only if finished entries run from new to old. */
  lemma PruneAlwaysExact(entries: seq<Entry>)
    requires Dated(entries)
    ensures (forall target :: Prune(entries, target) == KeepNotLater(entries, target)) <==> DatesNonincreasing(entries)
  {
    forall target
      ensures Prune(entries, target) == KeepNotLater(entries, target) <==> !Hides(entries, target)
    {
      PruneExactly(entries, target);
    }
    if !DatesNonincreasing(entries) {
      var i, j :| 0 <= i < j < |entries| && Older(entries[i], entries[j]);
      var target := entries[i].date.value;
      assert Hides(entries, target);
      assert Prune(entries, target) != KeepNotLater(entries, target);
    }
  }

  /** Whatever the order, nothing pending and nothing at or before the branch point is dropped. */
  lemma {:induction false} PruneKeeps(entries: seq<Entry>, target: BlockDate)
    requires Dated(entries)
    ensures forall e :: e in entries && !e.LaterThan(target) ==> e in Prune(entries, target)
    ensures forall e :: e in Prune(entries, target) ==> e in entries
  {
    if entries != [] {
      assert entries == [entries[0]] + entries[1..];
      PruneKeeps(entries[1..], target);
    }
  }

  lemma LookupFirst(entries: seq<Entry>)
    requires entries != []
    ensures var id := entries[0].log.id;
            HasId(entries, id) && Lookup(entries, id) == entries[0] && Without(entries, id) == entries[1..]
  {
  }

  lemma LookupRest(entries: seq<Entry>, id: FragmentId)
    requires entries != [] && entries[0].log.id != id && HasId(entries[1..], id)
    ensures HasId(entries, id) && Lookup(entries, id) == Lookup(entries[1..], id)
    ensures Without(entries, id) == [entries[0]] + Without(entries[1..], id)
  {
    HasIdTail(entries, id);
  }

  lemma {:induction false} LookupAt(entries: seq<Entry>, k: nat)
    requires k < |entries| && DistinctIds(entries)
    ensures HasId(entries, entries[k].log.id) && Lookup(entries, entries[k].log.id) == entries[k]
    ensures Without(entries, entries[k].log.id) == entries[..k] + entries[k + 1..]
  {
    hide Lookup, Without, HasId;
    if k == 0 {
      LookupFirst(entries);
      assert entries[..0] + entries[1..] == entries[1..];
    } else {
      var rest := entries[1..];
      LookupAt(rest, k - 1);
      LookupRest(entries, entries[k].log.id);
      assert [entries[0]] + (rest[..k - 1] + rest[k..]) == entries[..k] + entries[k + 1..];
    }
  }

  /** The entry after an update: unchanged if refused, else with the new status and date. */
  ghost predicate IsUpdated(before: Entry, after: Entry, status: Status, date: BlockDate) {
    if before.log.status.InABlock? && !status.InABlock? then after == before
    else
      && after.log.id == before.log.id && after.log.origin == before.log.origin
      && after.log.status == status && after.date == Some(date)
  }

  /** A cached entry moves to the front, updated, and the others keep their order. */
  lemma ModifyCached(entries: seq<Entry>, k: nat, status: Status, date: BlockDate, capacity: nat)
    requires k < |entries| && DistinctIds(entries)
    ensures var r := Modify(entries, entries[k].log.id, status, date, capacity);
            r != [] && IsUpdated(entries[k], r[0], status, date) && r[1..] == entries[..k] + entries[k + 1..]
  {
    hide HasId, Lookup, Without;
    LookupAt(entries, k);
  }

  /** An unknown id gets a new entry at the front; the others keep their order and at most the last use is evicted. */
  lemma ModifyUnknown(entries: seq<Entry>, id: FragmentId, status: Status, date: BlockDate, capacity: nat)
    requires !HasId(entries, id) && |entries| <= capacity
    ensures var r := Modify(entries, id, status, date, capacity);
            if capacity == 0 then r == []
            else
              && r != [] && IsUpdated(Entry(FragmentLog(id, Network, Pending), None), r[0], status, date)
              && r[1..] == if |entries| < capacity then entries else entries[..capacity - 1]
  {
  }

  /** An unknown id gets a pending entry without a date at the front; the others keep their order, and the last
      use is evicted exactly when the log is full. A known id changes nothing. */
  lemma InsertPendingIs(entries: seq<Entry>, log: FragmentLog, capacity: nat)
    requires |entries| <= capacity
    ensures HasId(entries, log.id) ==> InsertPending(entries, log, capacity) == entries
    ensures !HasId(entries, log.id) && capacity > 0 ==>
              InsertPending(entries, log, capacity) ==
              [Entry(log, None)] + if |entries| < capacity then entries else entries[..capacity - 1]
    ensures capacity == 0 ==> InsertPending(entries, log, capacity) == []
  {
  }

  /** The entries of new logs, the last one in front. */
  function Stacked(logs: seq<FragmentLog>): (r: seq<Entry>)
    ensures |r| == |logs| && forall i :: 0 <= i < |logs| ==> r[i] == Entry(logs[|logs| - 1 - i], None)
  {
    if logs == [] then [] else [Entry(logs[|logs| - 1], None)] + Stacked(logs[..|logs| - 1])
  }

  /** The most recently used entries that fit. */
  function Fitting(entries: seq<Entry>, capacity: nat): seq<Entry> {
    if |entries| <= capacity then entries else entries[..capacity]
  }

  ghost predicate AreNew(entries: seq<Entry>, logs: seq<FragmentLog>) {
    && (forall i :: 0 <= i < |logs| ==> !HasId(entries, logs[i].id))
    && (forall i, j :: 0 <= i < j < |logs| ==> logs[i].id != logs[j].id)
  }

  lemma StackedFirst(logs: seq<FragmentLog>)
    requires logs != []
    ensures Stacked(logs) == Stacked(logs[1..]) + [Entry(logs[0], None)]
  {
  }

  lemma StackedNone(entries: seq<Entry>, capacity: nat)
    requires |entries| <= capacity
    ensures Fitting(Stacked([]) + entries, capacity) == entries && InsertAll(entries, [], capacity) == entries
  {
  }

  /** New fragments are all logged in front, the last one first, for as long as they fit. */
  lemma {:induction false} InsertAllNew(entries: seq<Entry>, logs: seq<FragmentLog>, capacity: nat)
    requires |entries| <= capacity && AreNew(entries, logs)
    ensures InsertAll(entries, logs, capacity) == Fitting(Stacked(logs) + entries, capacity)
    decreases |logs|
  {
    hide AreNew, InsertPending, HasId, Fitting, Stacked;
    if logs == [] {
      StackedNone(entries, capacity);
    } else {
      var first, rest := [Entry(logs[0], None)], logs[1..];
      StillNew(entries, logs, capacity);
      InsertAllNew(InsertPending(entries, logs[0], capacity), rest, capacity);
      FittingTwice(Stacked(rest), first + entries, capacity);
      StackedFirst(logs);
      assert Stacked(rest) + first + entries == Stacked(rest) + (first + entries);
    }
  }

  lemma FittingTwice(front: seq<Entry>, entries: seq<Entry>, capacity: nat)
    ensures Fitting(front + Fitting(entries, capacity), capacity) == Fitting(front + entries, capacity)
  {
  }

  lemma StillNew(entries: seq<Entry>, logs: seq<FragmentLog>, capacity: nat)
    requires logs != [] && |entries| <= capacity && AreNew(entries, logs)
    ensures AreNew(InsertPending(entries, logs[0], capacity), logs[1..])
    ensures InsertPending(entries, logs[0], capacity) == Fitting([Entry(logs[0], None)] + entries, capacity)
    ensures |InsertPending(entries, logs[0], capacity)| <= capacity
  {
    var after := InsertPending(entries, logs[0], capacity);
    forall i | 0 <= i < |logs[1..]|
      ensures !HasId(after, logs[1..][i].id)
    {
      assert logs[1..][i] == logs[i + 1] && !HasId(entries, logs[i + 1].id);
      assert forall j :: 0 <= j < |after| ==> after[j] == Entry(logs[0], None) || after[j] in entries;
    }
  }

  datatype LogOp =
    | Insert(log: FragmentLog)
    | Update(id: FragmentId, status: Status, date: BlockDate)
    | BranchSwitch(target: BlockDate)

  /** `insert_pending` asserts that what it is given is pending. */
  predicate Legal(op: LogOp) {
    op.Insert? ==> op.log.status.Pending?
  }

  function Step(entries: seq<Entry>, op: LogOp, capacity: nat): (r: seq<Entry>) {
    match op
    case Insert(log) => InsertPending(entries, log, capacity)
    case Update(id, status, date) => Modify(entries, id, status, date, capacity)
    case BranchSwitch(target) => Prune(entries, target)
  }

  function Run(ops: seq<LogOp>, capacity: nat): (r: seq<Entry>) {
    if ops == [] then [] else Step(Run(ops[..|ops| - 1], capacity), ops[|ops| - 1], capacity)
  }

  /** The same operations from a given log on, the first one first. */
  function Steps(entries: seq<Entry>, ops: seq<LogOp>, capacity: nat): (r: seq<Entry>)
    decreases |ops|
  {
    if ops == [] then entries else Steps(Step(entries, ops[0], capacity), ops[1..], capacity)
  }

  lemma {:induction false} StepsAppend(entries: seq<Entry>, a: seq<LogOp>, b: seq<LogOp>, capacity: nat)
    ensures Steps(entries, a + b, capacity) == Steps(Steps(entries, a, capacity), b, capacity)
    decreases |a|
  {
    hide Step;
    if a == [] {
      assert a + b == b;
    } else {
      assert (a + b)[1..] == a[1..] + b;
      StepsAppend(Step(entries, a[0], capacity), a[1..], b, capacity);
    }
  }

  lemma {:induction false} RunIsSteps(ops: seq<LogOp>, capacity: nat)
    ensures Run(ops, capacity) == Steps([], ops, capacity)
  {
    hide Step;
    if ops != [] {
      var front, last := ops[..|ops| - 1], ops[|ops| - 1];
      RunIsSteps(front, capacity);
      StepsAppend([], front, [last], capacity);
      assert ops == front + [last];
    }
  }

  lemma HasIdTail(entries: seq<Entry>, id: FragmentId)
    requires entries != [] && entries[0].log.id != id
    ensures HasId(entries, id) <==> HasId(entries[1..], id)
  {
    if HasId(entries, id) {
      var i :| 0 <= i < |entries| && entries[i].log.id == id;
      assert entries[1..][i - 1] == entries[i];
    }
    if HasId(entries[1..], id) {
      var i :| 0 <= i < |entries[1..]| && entries[1..][i].log.id == id;
      assert entries[i + 1].log.id == id;
    }
  }

  lemma {:induction false} WithoutKeepsOthers(entries: seq<Entry>, id: FragmentId)
    requires DistinctIds(entries)
    ensures DistinctIds(Without(entries, id))
    ensures forall e :: e in Without(entries, id) <==> e in entries && e.log.id != id
    ensures |Without(entries, id)| == |entries| - if HasId(entries, id) then 1 else 0
  {
    hide HasId;
    if entries == [] {
      assert !HasId([], id) by { NoIdInNothing(id); }
    } else {
      assert entries == [entries[0]] + entries[1..];
      if entries[0].log.id == id {
        assert HasId(entries, id) by { FirstHasId(entries); }
      } else {
        HasIdTail(entries, id);
        WithoutKeepsOthers(entries[1..], id);
        var r := Without(entries[1..], id);
        assert forall i :: 0 <= i < |r| ==> r[i] in r;
      }
    }
  }

  lemma NoIdInNothing(id: FragmentId)
    ensures !HasId([], id)
  {
  }

  lemma FirstHasId(entries: seq<Entry>)
    requires entries != []
    ensures HasId(entries, entries[0].log.id)
  {
  }

  lemma PruneWellFormed(entries: seq<Entry>, target: BlockDate, capacity: nat)
    requires WellFormed(entries, capacity)
    ensures WellFormed(Prune(entries, target), capacity)
  {
    PruneIsSubsequence(entries, target);
  }

  lemma {:induction false} PruneIsSubsequence(entries: seq<Entry>, target: BlockDate)
    requires DistinctIds(entries) && Dated(entries)
    ensures DistinctIds(Prune(entries, target)) && Dated(Prune(entries, target))
    ensures |Prune(entries, target)| <= |entries|
    ensures DatesNonincreasing(entries) ==> DatesNonincreasing(Prune(entries, target))
  {
    if entries != [] && (!entries[0].Finished() || entries[0].LaterThan(target)) {
      var rest := entries[1..];
      PruneIsSubsequence(rest, target);
      PruneKeeps(rest, target);
      var kept := Prune(rest, target);
      assert forall i :: 0 <= i < |kept| ==> kept[i] in kept;
    }
  }

  lemma PutWellFormed(entries: seq<Entry>, e: Entry, capacity: nat)
    requires WellFormed(entries, capacity) && !HasId(entries, e.log.id) && (e.Finished() ==> e.date.Some?)
    ensures WellFormed(Put(entries, e, capacity), capacity)
  {
  }

  lemma PromoteWellFormed(entries: seq<Entry>, id: FragmentId, e: Entry, capacity: nat)
    requires WellFormed(entries, capacity) && HasId(entries, id) && e.log.id == id && (e.Finished() ==> e.date.Some?)
    ensures WellFormed([e] + Without(entries, id), capacity)
  {
    hide HasId, Without;
    WithoutKeepsOthers(entries, id);
    var others := Without(entries, id);
    assert forall i :: 0 <= i < |others| ==> others[i] in others;
  }

  /** Every operation keeps ids distinct, the capacity, and a date on every finished entry. */
  lemma StepWellFormed(entries: seq<Entry>, op: LogOp, capacity: nat)
    requires WellFormed(entries, capacity) && Legal(op)
    ensures WellFormed(Step(entries, op, capacity), capacity)
  {
    hide HasId, Without, Lookup, Put, Prune;
    match op
    case Insert(log) =>
      if !HasId(entries, log.id) {
        PutWellFormed(entries, Entry(log, None), capacity);
      }
    case Update(id, status, date) =>
      if HasId(entries, id) {
        var e := Lookup(entries, id);
        var e' := if e.log.Accepts(status) then Entry(e.log.(status := status), Some(date)) else e;
        PromoteWellFormed(entries, id, e', capacity);
      } else {
        PutWellFormed(entries, Entry(FragmentLog(id, Network, status), Some(date)), capacity);
      }
    case BranchSwitch(target) =>
      PruneWellFormed(entries, target, capacity);
  }

  /** So the unwrap of the date in the pruning scan is safe in every reachable log. */
  lemma {:induction false} RunWellFormed(ops: seq<LogOp>, capacity: nat)
    requires forall op :: op in ops ==> Legal(op)
    ensures WellFormed(Run(ops, capacity), capacity)
  {
    if ops != [] {
      RunWellFormed(ops[..|ops| - 1], capacity);
      StepWellFormed(Run(ops[..|ops| - 1], capacity), ops[|ops| - 1], capacity);
    }
  }

  ghost predicate MarkedInABlock(entries: seq<Entry>, id: FragmentId) {
    exists e :: e in entries && e.log.id == id && e.log.status.InABlock?
  }

  lemma PutKeepsInABlock(entries: seq<Entry>, e: Entry, capacity: nat, id: FragmentId)
    requires WellFormed(entries, capacity) && MarkedInABlock(entries, id) && !HasId(entries, e.log.id)
    requires HasId(Put(entries, e, capacity), id)
    ensures MarkedInABlock(Put(entries, e, capacity), id)
  {
    var after := Put(entries, e, capacity);
    var i :| 0 <= i < |after| && after[i].log.id == id;
    assert i > 0 && after[i] == entries[i - 1];
  }

  lemma StepKeepsInABlock(entries: seq<Entry>, op: LogOp, capacity: nat, id: FragmentId)
    requires WellFormed(entries, capacity) && MarkedInABlock(entries, id)
    requires HasId(Step(entries, op, capacity), id)
    ensures MarkedInABlock(Step(entries, op, capacity), id)
  {
    hide Put, Without, WellFormed, Lookup;
    var after := Step(entries, op, capacity);
    WellFormedIds(entries, capacity);
    match op
    case Insert(log) =>
      if !HasId(entries, log.id) {
        PutKeepsInABlock(entries, Entry(log, None), capacity, id);
      }
    case Update(target, status, date) =>
      if !HasId(entries, target) {
        PutKeepsInABlock(entries, Entry(FragmentLog(target, Network, status), Some(date)), capacity, id);
      } else {
        var e :| e in entries && e.log.id == id && e.log.status.InABlock?;
        WithoutKeepsOthers(entries, target);
        assert e in after || after[0] in after;
      }
    case BranchSwitch(target) =>
      PruneKeeps(entries, target);
      var i :| 0 <= i < |after| && after[i].log.id == id;
      assert after[i] in after;
  }

  /** Once in a block, a fragment is reported in a block for as long as its entry stays cached. */
  lemma {:induction false} RunKeepsInABlock(before: seq<LogOp>, ops: seq<LogOp>, capacity: nat, id: FragmentId)
    requires forall op :: op in before + ops ==> Legal(op)
    requires MarkedInABlock(Run(before, capacity), id)
    requires forall k :: 0 <= k <= |ops| ==> HasId(Run(before + ops[..k], capacity), id)
    ensures MarkedInABlock(Run(before + ops, capacity), id)
    decreases |ops|
  {
    if ops == [] {
      assert before + ops == before;
    } else {
      var front, last := ops[..|ops| - 1], ops[|ops| - 1];
      assert forall k :: 0 <= k <= |front| ==> ops[..k] == front[..k];
      assert before + ops == before + front + [last];
      assert (before + ops)[..|before + ops| - 1] == before + front;
      RunKeepsInABlock(before, front, capacity, id);
      RunWellFormed(before + front, capacity);
      assert ops[..|ops|] == ops;
      StepKeepsInABlock(Run(before + front, capacity), last, capacity, id);
    }
  }

  /** An update is orderly when it is not refused and no finished entry has a later date. */
  ghost predicate Orderly(entries: seq<Entry>, op: LogOp) {
    op.Update? ==>
      && (HasId(entries, op.id) ==> Lookup(entries, op.id).log.Accepts(op.status))
      && (forall e :: e in entries ==> !e.LaterThan(op.date))
  }

  lemma OrderlyStep(entries: seq<Entry>, op: LogOp, capacity: nat)
    requires WellFormed(entries, capacity) && Legal(op) && Orderly(entries, op) && DatesNonincreasing(entries)
    ensures DatesNonincreasing(Step(entries, op, capacity))
  {
    hide DatesNonincreasing, WellFormed, Without, Lookup, Prune;
    match op
    case Insert(log) =>
      PutKeepsOrder(entries, Entry(log, None), capacity);
    case Update(id, status, date) =>
      WellFormedIds(entries, capacity);
      WithoutKeepsOthers(entries, id);
      WithoutKeepsOrder(entries, id);
      if HasId(entries, id) {
        NewestFirst(Without(entries, id), Entry(Lookup(entries, id).log.(status := status), Some(date)));
      } else {
        PutKeepsOrder(entries, Entry(FragmentLog(id, Network, status), Some(date)), capacity);
      }
    case BranchSwitch(target) =>
      WellFormedIds(entries, capacity);
      PruneIsSubsequence(entries, target);
  }

  lemma WellFormedIds(entries: seq<Entry>, capacity: nat)
    requires WellFormed(entries, capacity)
    ensures DistinctIds(entries) && Dated(entries)
  {
  }

  lemma NewestFirst(entries: seq<Entry>, e: Entry)
    requires DatesNonincreasing(entries) && forall x :: x in entries ==> !Older(e, x)
    ensures DatesNonincreasing([e] + entries)
  {
  }

  lemma PutKeepsOrder(entries: seq<Entry>, e: Entry, capacity: nat)
    requires DatesNonincreasing(entries) && forall x :: x in entries ==> !Older(e, x)
    ensures DatesNonincreasing(Put(entries, e, capacity))
  {
    NewestFirst(entries, e);
  }

  lemma {:induction false} WithoutKeepsOrder(entries: seq<Entry>, id: FragmentId)
    requires DistinctIds(entries) && DatesNonincreasing(entries)
    ensures DatesNonincreasing(Without(entries, id))
  {
    if entries != [] && entries[0].log.id != id {
      WithoutKeepsOrder(entries[1..], id);
      WithoutKeepsOthers(entries[1..], id);
      var others := Without(entries[1..], id);
      assert forall i :: 0 <= i < |others| ==> others[i] in others;
    }
  }

  /** As long as updates come in order, every branch switch prunes exactly. */
  lemma {:induction false} OrderlyRunPrunesExactly(ops: seq<LogOp>, capacity: nat, target: BlockDate)
    requires forall op :: op in ops ==> Legal(op)
    requires forall k :: 0 <= k < |ops| ==> Orderly(Run(ops[..k], capacity), ops[k])
    ensures DatesNonincreasing(Run(ops, capacity))
    ensures Prune(Run(ops, capacity), target) == KeepNotLater(Run(ops, capacity), target)
  {
    if ops != [] {
      var front := ops[..|ops| - 1];
      assert forall k :: 0 <= k < |front| ==> ops[..k] == front[..k];
      OrderlyRunPrunesExactly(front, capacity, target);
      RunWellFormed(front, capacity);
      OrderlyStep(Run(front, capacity), ops[|ops| - 1], capacity);
    }
    RunWellFormed(ops, capacity);
    PruneAlwaysExact(Run(ops, capacity));
  }

  /** A refused update still promotes its entry, and that can hide a later one from a branch switch. */
  lemma RefusedUpdateHides(capacity: nat)
    requires capacity >= 2
    ensures var day1, day2 := BlockDate(1, 0), BlockDate(2, 0);
            var ops := [Update(1, InABlock(day1, 7), day1), Update(2, InABlock(day2, 8), day2),
                        Update(1, Rejected(""), day2)];
            Prune(Run(ops, capacity), day1) != KeepNotLater(Run(ops, capacity), day1)
  {
    var day1, day2 := BlockDate(1, 0), BlockDate(2, 0);
    var one := Entry(FragmentLog(1, Network, InABlock(day1, 7)), Some(day1));
    var two := Entry(FragmentLog(2, Network, InABlock(day2, 8)), Some(day2));
    var op1, op2 := Update(1, InABlock(day1, 7), day1), Update(2, InABlock(day2, 8), day2);
    var op3 := Update(1, Rejected(""), day2);
    assert Run([], capacity) == [];
    assert [op1][..0] == [] && Run([op1], capacity) == [one];
    assert [op1, op2][..1] == [op1] && Run([op1, op2], capacity) == [two, one];
    var log := [two, one];
    assert log[1].log.id == 1 && log[1..] == [one] && [one][1..] == [];
    assert Lookup(log, 1) == one && Without(log, 1) == [two];
    assert Modify(log, 1, Rejected(""), day2, capacity) == [one, two];
    assert [op1, op2, op3][..2] == [op1, op2] && Run([op1, op2, op3], capacity) == [one, two];
    var final := [one, two];
    assert final[0].Finished() && !final[0].LaterThan(day1) && final[1].LaterThan(day1);
    PruneExactly(final, day1);
  }

  class Logs {
    var entries: seq<Entry>
    const capacity: nat

    ghost predicate Valid()
      reads this
    {
      WellFormed(entries, capacity)
    }

    constructor (capacity: nat)
      ensures Valid() && entries == [] && this.capacity == capacity
    {
      this.capacity := capacity;
      entries := [];
    }

    method InsertAllPending(logs: seq<FragmentLog>)
      requires Valid() && forall log :: log in logs ==> log.status.Pending?
      modifies this
      ensures Valid() && entries == InsertAll(old(entries), logs, capacity)
      ensures AreNew(old(entries), logs) ==> entries == Fitting(Stacked(logs) + old(entries), capacity)
    {
      if AreNew(entries, logs) {
        InsertAllNew(entries, logs, capacity);
      }
      hide AreNew, Fitting, Stacked;
      for i := 0 to |logs|
        invariant Valid()
        invariant InsertAll(old(entries), logs, capacity) == InsertAll(entries, logs[i..], capacity)
      {
        assert logs[i..][1..] == logs[i + 1..];
        StepWellFormed(entries, Insert(logs[i]), capacity);
        entries := InsertPending(entries, logs[i], capacity);
      }
    }

    method ModifyOne(id: FragmentId, status: Status, date: BlockDate)
      requires Valid()
      modifies this
      ensures Valid() && entries == Modify(old(entries), id, status, date, capacity)
      ensures forall k :: 0 <= k < |old(entries)| && old(entries)[k].log.id == id ==>
                && entries != [] && IsUpdated(old(entries)[k], entries[0], status, date)
                && entries[1..] == old(entries)[..k] + old(entries)[k + 1..]
      ensures !HasId(old(entries), id) && capacity > 0 ==>
                && entries != [] && IsUpdated(Entry(FragmentLog(id, Network, Pending), None), entries[0], status, date)
                && entries[1..] == if |old(entries)| < capacity then old(entries) else old(entries)[..capacity - 1]
    {
      hide Modify;
      StepWellFormed(entries, Update(id, status, date), capacity);
      forall k | 0 <= k < |entries| && entries[k].log.id == id
        ensures var r := Modify(entries, id, status, date, capacity);
                r != [] && IsUpdated(entries[k], r[0], status, date) && r[1..] == entries[..k] + entries[k + 1..]
      {
        ModifyCached(entries, k, status, date, capacity);
      }
      if !HasId(entries, id) {
        ModifyUnknown(entries, id, status, date, capacity);
      }
      entries := Modify(entries, id, status, date, capacity);
    }

    method ModifyEach(ids: seq<FragmentId>, status: Status, date: BlockDate)
      requires Valid()
      modifies this
      ensures Valid() && entries == ModifyAll(old(entries), ids, status, date, capacity)
    {
      for i := 0 to |ids|
        invariant Valid()
        invariant ModifyAll(old(entries), ids, status, date, capacity) ==
                  ModifyAll(entries, ids[i..], status, date, capacity)
      {
        assert ids[i..][1..] == ids[i + 1..];
        ModifyOne(ids[i], status, date);
      }
    }

    method RemoveLogsAfterDate(target: BlockDate)
      requires Valid()
      modifies this
      ensures Valid() && entries == Prune(old(entries), target)
    {
      var toRemove: seq<FragmentId> := [];
      var i := 0;
      while i < |entries|
        invariant 0 <= i <= |entries|
        invariant Scan(entries, target) == toRemove + Scan(entries[i..], target)
      {
        assert entries[i..][1..] == entries[i + 1..];
        if entries[i].Finished() {
          if target.Before(entries[i].date.value) {
            toRemove := toRemove + [entries[i].log.id];
          } else {
            break;
          }
        }
        i := i + 1;
      }
      assert toRemove + [] == toRemove;
      ScanIsPrune(entries, target);
      PruneWellFormed(entries, target, capacity);
      for k := 0 to |toRemove|
        invariant WithoutAll(old(entries), toRemove) == WithoutAll(entries, toRemove[k..])
      {
        assert toRemove[k..][1..] == toRemove[k + 1..];
        entries := Without(entries, toRemove[k]);
      }
    }
  }

  function Scan(entries: seq<Entry>, target: BlockDate): (ids: seq<FragmentId>)
    ensures forall id :: id in ids ==> HasId(entries, id)
  {
    if entries == [] then []
    else
      assert forall i :: 0 <= i < |entries[1..]| ==> entries[1..][i] == entries[i + 1];
      if !entries[0].Finished() then Scan(entries[1..], target)
      else if entries[0].LaterThan(target) then [entries[0].log.id] + Scan(entries[1..], target)
      else []
  }

  function WithoutAll(entries: seq<Entry>, ids: seq<FragmentId>): (r: seq<Entry>)
    decreases |ids|
  {
    if ids == [] then entries else WithoutAll(Without(entries, ids[0]), ids[1..])
  }

  lemma {:induction false} WithoutAllSkips(e: Entry, entries: seq<Entry>, ids: seq<FragmentId>)
    requires e.log.id !in ids
    ensures WithoutAll([e] + entries, ids) == [e] + WithoutAll(entries, ids)
    decreases |ids|
  {
    if ids != [] {
      assert ([e] + entries)[1..] == entries;
      WithoutAllSkips(e, Without(entries, ids[0]), ids[1..]);
    }
  }

  /** Collecting the ids first and popping them afterwards removes what the scan passed over. */
  lemma {:induction false} ScanIsPrune(entries: seq<Entry>, target: BlockDate)
    requires DistinctIds(entries)
    ensures WithoutAll(entries, Scan(entries, target)) == Prune(entries, target)
  {
    if entries != [] {
      var rest := entries[1..];
      ScanIsPrune(rest, target);
      assert entries == [entries[0]] + rest;
      if !entries[0].Finished() {
        WithoutAllSkips(entries[0], rest, Scan(rest, target));
      }
    }
  }

  function InsertAll(entries: seq<Entry>, logs: seq<FragmentLog>, capacity: nat): (r: seq<Entry>)
    decreases |logs|
  {
    if logs == [] then entries else InsertAll(InsertPending(entries, logs[0], capacity), logs[1..], capacity)
  }
}
