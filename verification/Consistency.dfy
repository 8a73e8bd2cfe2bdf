/** How the pool and the status log hang together over any run of the fragment task. */
module Consistency {
  import opened Base
  import opened IndexedDeque
  import OrderedSet
  import opened Pool
  import L = Logs
  import opened Selection
  import S = Submission
  import opened MempoolState

  /** The ids of a set are logged pending, if at all. */
  ghost predicate PendingIn(log: seq<L.Entry>, ids: set<FragmentId>) {
    forall e :: e in log && e.log.id in ids ==> e.log.status.Pending?
  }

  ghost predicate Within(log: seq<L.Entry>, known: set<FragmentId>) {
    forall e :: e in log ==> e.log.id in known
  }

  function OpIds(op: L.LogOp): set<FragmentId> {
    match op
    case Insert(log) => {log.id}
    case Update(id, _, _) => {id}
    case BranchSwitch(_) => {}
  }

  /** The operation does not decide the fate of any of the ids. */
  ghost predicate Spares(op: L.LogOp, ids: set<FragmentId>) {
    L.Legal(op) && (op.Update? ==> op.id !in ids)
  }

  /** An operation adds or changes at most the entry of its own id. */
  lemma StepEntries(log: seq<L.Entry>, op: L.LogOp, capacity: nat, e: L.Entry)
    requires L.WellFormed(log, capacity) && e in L.Step(log, op, capacity)
    ensures e in log || (op.Insert? && e.log == op.log) || (op.Update? && e.log.id == op.id)
  {
    hide L.WellFormed, L.Lookup, L.Without, L.Prune;
    L.WellFormedIds(log, capacity);
    match op
    case Insert(_) =>
    case Update(id, _, _) => L.WithoutKeepsOthers(log, id);
    case BranchSwitch(target) => L.PruneKeeps(log, target);
  }

  lemma StepKeeps(log: seq<L.Entry>, op: L.LogOp, capacity: nat, ids: set<FragmentId>, known: set<FragmentId>)
    requires L.WellFormed(log, capacity) && PendingIn(log, ids) && Spares(op, ids)
    ensures L.WellFormed(L.Step(log, op, capacity), capacity) && PendingIn(L.Step(log, op, capacity), ids)
    ensures Within(log, known) && OpIds(op) <= known ==> Within(L.Step(log, op, capacity), known)
  {
    hide L.WellFormed, L.Step;
    L.StepWellFormed(log, op, capacity);
    forall e | e in L.Step(log, op, capacity)
      ensures e in log || (op.Insert? && e.log == op.log) || (op.Update? && e.log.id == op.id)
    {
      StepEntries(log, op, capacity, e);
    }
  }

  lemma {:induction false} StepsKeep(log: seq<L.Entry>, ops: seq<L.LogOp>, capacity: nat, ids: set<FragmentId>,
                                     known: set<FragmentId>)
    requires L.WellFormed(log, capacity) && PendingIn(log, ids) && forall op :: op in ops ==> Spares(op, ids)
    ensures L.WellFormed(L.Steps(log, ops, capacity), capacity) && PendingIn(L.Steps(log, ops, capacity), ids)
    ensures Within(log, known) && (forall op :: op in ops ==> OpIds(op) <= known) ==>
            Within(L.Steps(log, ops, capacity), known)
    decreases |ops|
  {
    hide L.WellFormed, L.Step, PendingIn, Within, Spares;
    if ops != [] {
      StepKeeps(log, ops[0], capacity, ids, known);
      StepsKeep(L.Step(log, ops[0], capacity), ops[1..], capacity, ids, known);
    }
  }

  function IdSet(log: seq<L.Entry>): set<FragmentId> {
    set e | e in log :: e.log.id
  }

  lemma {:induction false} IdSetSize(log: seq<L.Entry>)
    requires L.DistinctIds(log)
    ensures |IdSet(log)| == |log|
  {
    if log != [] {
      IdSetSize(log[1..]);
      assert log == [log[0]] + log[1..];
      assert IdSet(log) == {log[0].log.id} + IdSet(log[1..]);
    }
  }

  lemma {:induction false} SubsetSize<T>(a: set<T>, b: set<T>)
    requires a <= b
    ensures |a| <= |b|
  {
    if a != {} {
      var x :| x in a;
      SubsetSize(a - {x}, b - {x});
    }
  }

  /** A log within a set of ids that misses one of them has room for it. */
  lemma HasRoom(log: seq<L.Entry>, known: set<FragmentId>, id: FragmentId)
    requires L.DistinctIds(log) && Within(log, known) && id in known && !L.HasId(log, id)
    ensures |log| < |known|
  {
    IdSetSize(log);
    forall x | x in IdSet(log)
      ensures x in known - {id}
    {
      var e :| e in log && e.log.id == x;
      var i :| 0 <= i < |log| && log[i] == e;
    }
    SubsetSize(IdSet(log), known - {id});
  }

  lemma HasIdOf(log: seq<L.Entry>, id: FragmentId)
    ensures L.HasId(log, id) <==> exists e :: e in log && e.log.id == id
  {
  }

  /** Without more ids than the log has room for, a pending entry is neither evicted nor pruned. */
  lemma StepCaches(log: seq<L.Entry>, op: L.LogOp, capacity: nat, ids: set<FragmentId>, known: set<FragmentId>,
                   id: FragmentId)
    requires L.WellFormed(log, capacity) && PendingIn(log, ids) && Spares(op, ids) && Within(log, known)
    requires OpIds(op) <= known && |known| <= capacity && id in ids
    requires L.HasId(log, id) || (op.Insert? && op.log.id == id)
    ensures L.HasId(L.Step(log, op, capacity), id)
  {
    hide L.WellFormed, L.Without, L.Lookup, L.Prune, L.HasId, Within;
    L.WellFormedIds(log, capacity);
    var after := L.Step(log, op, capacity);
    HasIdOf(log, id);
    HasIdOf(after, id);
    match op
    case Insert(l) =>
      if !L.HasId(log, l.id) {
        HasRoom(log, known, l.id);
        assert after == [L.Entry(l, None)] + log;
      }
    case Update(target, _, _) =>
      L.WithoutKeepsOthers(log, target);
      if !L.HasId(log, target) {
        HasRoom(log, known, target);
      }
    case BranchSwitch(target) =>
      L.PruneKeeps(log, target);
  }

  lemma {:induction false} StepsCache(log: seq<L.Entry>, ops: seq<L.LogOp>, capacity: nat, ids: set<FragmentId>,
                                      known: set<FragmentId>, id: FragmentId)
    requires L.WellFormed(log, capacity) && PendingIn(log, ids) && Within(log, known) && |known| <= capacity &&
             id in ids
    requires forall op :: op in ops ==> Spares(op, ids) && OpIds(op) <= known
    requires L.HasId(log, id) || exists op :: op in ops && op.Insert? && op.log.id == id
    ensures L.HasId(L.Steps(log, ops, capacity), id)
    decreases |ops|
  {
    hide L.WellFormed, L.Step, PendingIn, Within, Spares, L.HasId;
    if ops != [] {
      assert ops == [ops[0]] + ops[1..];
      StepKeeps(log, ops[0], capacity, ids, known);
      if L.HasId(log, id) || (ops[0].Insert? && ops[0].log.id == id) {
        StepCaches(log, ops[0], capacity, ids, known, id);
      }
      StepsCache(L.Step(log, ops[0], capacity), ops[1..], capacity, ids, known, id);
    }
  }

  ghost function PooledIds(s: State): set<FragmentId> {
    set p | p in s.queue :: p.0
  }

  /** Distinct ids on both sides, and pooled fragments are logged pending, if at all. */
  ghost predicate Consistent(s: State) {
    DistinctKeys(s.queue) && L.WellFormed(s.log, s.logMax) && PendingIn(s.log, PooledIds(s))
  }

  lemma {:induction false} RetainFacts(queue: seq<Pooled>, p: Pooled -> bool)
    requires DistinctKeys(queue)
    ensures DistinctKeys(Retain(queue, p)) && forall x :: x in Retain(queue, p) <==> x in queue && p(x)
  {
    if queue != [] {
      assert queue == [queue[0]] + queue[1..];
      RetainFacts(queue[1..], p);
      var rest := Retain(queue[1..], p);
      assert forall i :: 0 <= i < |rest| ==> rest[i] in rest;
    }
  }

  /** What one pass accepts, the first fragment apart. */
  lemma AcceptedNext(ctx: S.Context, queue: seq<Pooled>, room: nat, batch: seq<Pooled>, stopped: bool)
    requires batch != []
    ensures var accepted := S.AcceptedOf(batch, S.Judge(ctx, queue, room, batch, stopped));
            var p, v, rest := batch[0], S.Verdict1(ctx, queue, room, batch[0]), batch[1..];
            if stopped then accepted == S.AcceptedOf(rest, S.Judge(ctx, queue, room, rest, true))
            else if v.Accepted? then
              accepted == [p] + S.AcceptedOf(rest, S.Judge(ctx, queue + [p], room - 1, rest, false))
            else accepted == S.AcceptedOf(rest, S.Judge(ctx, queue, room, rest, ctx.Stops(p)))
  {
    hide S.Filter, S.Verdict1;
  }

  lemma NewKey(queue: seq<Pooled>, p: Pooled)
    requires DistinctKeys(queue) && !HasKey(queue, p.0)
    ensures DistinctKeys(queue + [p])
  {
  }

  /** What is accepted passed the filter, and no id is pooled twice. */
  lemma {:induction false} AcceptedFacts(ctx: S.Context, queue: seq<Pooled>, room: nat, batch: seq<Pooled>,
                                         stopped: bool)
    requires DistinctKeys(queue)
    ensures var accepted := S.AcceptedOf(batch, S.Judge(ctx, queue, room, batch, stopped));
            && DistinctKeys(queue + accepted)
            && forall p :: p in accepted ==> S.Filter(ctx.log, p, ctx.check).None?
    decreases |batch|
  {
    hide S.Filter, S.Judge, S.AcceptedOf, DistinctKeys, HasKey;
    if batch == [] {
      NothingAccepted(ctx, queue, room, stopped);
      assert queue + [] == queue;
    } else {
      var p, rest := batch[0], batch[1..];
      AcceptedNext(ctx, queue, room, batch, stopped);
      if stopped {
        AcceptedFacts(ctx, queue, room, rest, true);
      } else if S.Verdict1(ctx, queue, room, p).Accepted? {
        NewKey(queue, p);
        AcceptedFacts(ctx, queue + [p], room - 1, rest, false);
        var tail := S.AcceptedOf(rest, S.Judge(ctx, queue + [p], room - 1, rest, false));
        assert queue + ([p] + tail) == queue + [p] + tail;
      } else {
        AcceptedFacts(ctx, queue, room, rest, ctx.Stops(p));
      }
    }
  }

  lemma NothingAccepted(ctx: S.Context, queue: seq<Pooled>, room: nat, stopped: bool)
    ensures S.AcceptedOf([], S.Judge(ctx, queue, room, [], stopped)) == []
  {
  }

  /** Fragments of different fates have different ids. */
  lemma {:induction false} FatesApart(queue: seq<Pooled>, fates: seq<Fate>, p: Pooled, q: Pooled)
    requires |queue| == |fates| && DistinctKeys(queue)
    requires p in Pick(queue, fates, IsDropped) && q in Pick(queue, fates, IsKept)
    ensures p.0 != q.0
  {
    PickFacts(queue[1..], fates[1..], IsDropped);
    PickFacts(queue[1..], fates[1..], IsKept);
    if p in Pick(queue[1..], fates[1..], IsDropped) && q in Pick(queue[1..], fates[1..], IsKept) {
      FatesApart(queue[1..], fates[1..], p, q);
    }
  }

  lemma {:induction false} RejectionsAreDropped(queue: seq<Pooled>, fates: seq<Fate>, date: BlockDate, op: L.LogOp)
    requires |queue| == |fates| && op in RejectionUpdates(queue, fates, date)
    ensures op.Update? && exists p :: p in Pick(queue, fates, IsDropped) && p.0 == op.id
  {
    var n := |queue| - 1;
    assert queue == queue[..n] + [queue[n]] && fates == fates[..n] + [fates[n]];
    PickAppend(queue[..n], fates[..n], queue[n], fates[n], IsDropped);
    if op in RejectionUpdates(queue[..n], fates[..n], date) {
      RejectionsAreDropped(queue[..n], fates[..n], date, op);
    } else {
      var dropped := Pick(queue, fates, IsDropped);
      assert dropped[|dropped| - 1] == queue[n];
    }
  }

  /** The queue a message leaves has distinct ids, all pooled before or joining now. */
  lemma NextQueue<Ledger>(s: State, msg: Message<Ledger>)
    requires DistinctKeys(s.queue)
    ensures DistinctKeys(Next(s, msg).queue)
    ensures forall p :: p in Next(s, msg).queue ==> p in s.queue || p in Joining(s, msg)
  {
    hide Retain, Pick, S.AcceptedOf, S.Judge, Fates, LogRejections, L.ModifyAll, L.InsertAll, L.Prune, ExpiredInOrder,
         NotIn, NotExpired;
    hide DistinctKeys;
    match msg
    case SendTransactions(_, batch, failFast, check, _) =>
      AcceptedFacts(S.Context(s.log, check, failFast), s.queue, Room(s), batch, false);
    case RemoveTransactions(ids, _, _, today) =>
      RetainFacts(s.queue, NotIn(ids));
      RetainFacts(Retain(s.queue, NotIn(ids)), NotExpired(today));
    case BranchSwitch(_) =>
    case SelectTransactions(_, _, _, _) =>
      PickFacts(s.queue, Fates(s, msg), IsKept);
  }

  /** Fragments that join are not in the log. */
  lemma JoiningAreUnlogged<Ledger>(s: State, msg: Message<Ledger>)
    requires DistinctKeys(s.queue)
    ensures forall p :: p in Joining(s, msg) ==> !L.HasId(s.log, p.0)
  {
    hide S.AcceptedOf, S.Judge, DistinctKeys;
    if msg.SendTransactions? {
      AcceptedFacts(S.Context(s.log, msg.check, msg.failFast), s.queue, Room(s), msg.batch, false);
    }
  }

  lemma PendingAreNew(queue: seq<Pooled>, joining: seq<Pooled>, log: seq<L.Entry>, origin: L.Origin)
    requires DistinctKeys(queue + joining) && forall p :: p in joining ==> !L.HasId(log, p.0)
    ensures L.AreNew(log, S.PendingLogs(joining, origin))
  {
    hide L.HasId;
    var all, logs := queue + joining, S.PendingLogs(joining, origin);
    forall i, j | 0 <= i < j < |logs|
      ensures logs[i].id != logs[j].id
    {
      assert all[|queue| + i] == joining[i] && all[|queue| + j] == joining[j];
    }
    forall i | 0 <= i < |logs|
      ensures !L.HasId(log, logs[i].id)
    {
      assert joining[i] in joining;
    }
  }

  /** What joins is logged in front, pending, the last one first, for as long as it fits. */
  lemma JoiningAreLogged<Ledger>(s: State, msg: Message<Ledger>)
    requires DistinctKeys(s.queue) && L.WellFormed(s.log, s.logMax) && msg.SendTransactions?
    ensures Next(s, msg).log ==
            L.Fitting(L.Stacked(S.PendingLogs(Joining(s, msg), msg.origin)) + s.log, s.logMax)
  {
    hide S.AcceptedOf, S.Judge, L.InsertAll, L.Fitting, L.Stacked, L.HasId, L.AreNew, DistinctKeys;
    var joining := Joining(s, msg);
    JoiningAreUnlogged(s, msg);
    AcceptedFacts(S.Context(s.log, msg.check, msg.failFast), s.queue, Room(s), msg.batch, false);
    PendingAreNew(s.queue, joining, s.log, msg.origin);
    L.InsertAllNew(s.log, S.PendingLogs(joining, msg.origin), s.logMax);
  }

  lemma NoExpiredKey(queue: seq<Pooled>, date: BlockDate, id: FragmentId)
    requires DistinctKeys(queue) && ExpiredId(queue, id, date)
    ensures forall p :: p in Retain(queue, NotExpired(date)) ==> p.0 != id
  {
    hide Retain;
    RetainFacts(queue, NotExpired(date));
  }

  lemma ExpiredAreOut(queue: seq<Pooled>, date: BlockDate, id: FragmentId)
    requires DistinctKeys(queue) && id in ExpiredInOrder(queue, date)
    ensures forall p :: p in Retain(queue, NotExpired(date)) ==> p.0 != id
  {
    hide OrderedSet.TakeWhile, Retain, ExpiryList, DistinctKeys, Views, ExpiredId, Expired, TotalSize;
    var timeouts := ExpiryList(queue);
    ExpiryListViews(queue);
    var items := OrderedSet.TakeWhile(timeouts, (t: TimeoutItem) => t.validUntil.Before(date));
    ExpiredPrefix(queue, timeouts, TotalSize(queue), date, items);
    ExpiredIds(queue, items, date);
    NoExpiredKey(queue, date, id);
  }

  /** Whatever a message decides about a fragment, the fragment is not pooled afterwards. */
  lemma OpsSparePooled<Ledger>(s: State, msg: Message<Ledger>, op: L.LogOp)
    requires DistinctKeys(s.queue) && op in LogOps(s, msg)
    ensures Spares(op, PooledIds(Next(s, msg)))
  {
    hide Retain, Pick, S.AcceptedOf, S.Judge, Fates, LogRejections, L.ModifyAll, L.InsertAll, L.Prune, ExpiredInOrder,
         DistinctKeys, RejectionUpdates;
    match msg
    case SendTransactions(_, _, _, _, _) =>
    case RemoveTransactions(ids, _, _, today) =>
      var rest := Retain(s.queue, NotIn(ids));
      RetainFacts(s.queue, NotIn(ids));
      RetainFacts(rest, NotExpired(today));
      if op.id in ExpiredInOrder(rest, today) {
        ExpiredAreOut(rest, today, op.id);
      }
    case BranchSwitch(_) =>
    case SelectTransactions(_, _, _, date) =>
      RejectionsAreDropped(s.queue, Fates(s, msg), date, op);
      var p :| p in Pick(s.queue, Fates(s, msg), IsDropped) && p.0 == op.id;
      forall q | q in Pick(s.queue, Fates(s, msg), IsKept)
        ensures q.0 != op.id
      {
        FatesApart(s.queue, Fates(s, msg), p, q);
      }
  }

  lemma PendingNow<Ledger>(s: State, msg: Message<Ledger>)
    requires Consistent(s)
    ensures PendingIn(s.log, PooledIds(Next(s, msg)))
  {
    hide Next, Joining, L.WellFormed, DistinctKeys, L.HasId;
    NextQueue(s, msg);
    JoiningAreUnlogged(s, msg);
    forall e | e in s.log && e.log.id in PooledIds(Next(s, msg))
      ensures e.log.status.Pending?
    {
      var p :| p in Next(s, msg).queue && p.0 == e.log.id;
      HasIdOf(s.log, p.0);
    }
  }

  lemma NextConsistent<Ledger>(s: State, msg: Message<Ledger>)
    requires Consistent(s)
    ensures Consistent(Next(s, msg))
  {
    hide Next, LogOps, L.WellFormed, DistinctKeys, PendingIn, PooledIds, Spares;
    NextQueue(s, msg);
    NextIsSteps(s, msg);
    KeepsCapacity(s, msg);
    PendingNow(s, msg);
    forall op | op in LogOps(s, msg)
      ensures Spares(op, PooledIds(Next(s, msg)))
    {
      OpsSparePooled(s, msg, op);
    }
    StepsKeep(s.log, LogOps(s, msg), s.logMax, PooledIds(Next(s, msg)), {});
  }

  /** Over any run a pooled fragment is logged pending, if it is logged at all. */
  lemma {:induction false} RunConsistent<Ledger>(s: State, msgs: seq<Message<Ledger>>)
    requires Consistent(s)
    ensures Consistent(AfterAll(s, msgs))
  {
    hide Next, Consistent;
    if msgs != [] {
      var n := |msgs| - 1;
      RunConsistent(s, msgs[..n]);
      NextConsistent(AfterAll(s, msgs[..n]), msgs[n]);
    }
  }

  /** Every pooled fragment is in the log. */
  ghost predicate AllLogged(s: State) {
    forall p :: p in s.queue ==> L.HasId(s.log, p.0)
  }

  lemma NextLogsAll<Ledger>(s: State, msg: Message<Ledger>, known: set<FragmentId>)
    requires Consistent(s) && AllLogged(s) && Within(s.log, known) && |known| <= s.logMax
    requires forall op :: op in LogOps(s, msg) ==> OpIds(op) <= known
    ensures AllLogged(Next(s, msg)) && Within(Next(s, msg).log, known)
  {
    hide Next, LogOps, Joining, L.WellFormed, DistinctKeys, PendingIn, Spares, Within, L.HasId, PooledIds;
    var ids := PooledIds(Next(s, msg));
    NextQueue(s, msg);
    NextIsSteps(s, msg);
    PendingNow(s, msg);
    forall op | op in LogOps(s, msg)
      ensures Spares(op, ids)
    {
      OpsSparePooled(s, msg, op);
    }
    StepsKeep(s.log, LogOps(s, msg), s.logMax, ids, known);
    forall p | p in Next(s, msg).queue
      ensures L.HasId(Next(s, msg).log, p.0)
    {
      if p !in s.queue {
        JoiningIsInserted(s, msg, p);
      }
      IsPooled(Next(s, msg), p);
      StepsCache(s.log, LogOps(s, msg), s.logMax, ids, known, p.0);
    }
  }

  lemma IsPooled(s: State, p: Pooled)
    requires p in s.queue
    ensures p.0 in PooledIds(s)
  {
  }

  lemma JoiningIsInserted<Ledger>(s: State, msg: Message<Ledger>, p: Pooled)
    requires p in Joining(s, msg)
    ensures exists op :: op in LogOps(s, msg) && op.Insert? && op.log.id == p.0
  {
    hide S.AcceptedOf, S.Judge;
    var joining := Joining(s, msg);
    var i :| 0 <= i < |joining| && joining[i] == p;
    var op := LogOps(s, msg)[i];
    assert op in LogOps(s, msg);
  }

  /** The ids a run of log operations speaks of. */
  ghost function Mentioned(ops: seq<L.LogOp>): set<FragmentId> {
    if ops == [] then {} else Mentioned(ops[..|ops| - 1]) + OpIds(ops[|ops| - 1])
  }

  lemma {:induction false} MentionedHas(ops: seq<L.LogOp>, op: L.LogOp)
    requires op in ops
    ensures OpIds(op) <= Mentioned(ops)
  {
    if op != ops[|ops| - 1] {
      MentionedHas(ops[..|ops| - 1], op);
    }
  }

  lemma {:induction false} RunLogsAllWithin<Ledger>(s: State, msgs: seq<Message<Ledger>>, known: set<FragmentId>)
    requires s.queue == [] && s.log == [] && |known| <= s.logMax
    requires forall op :: op in AllLogOps(s, msgs) ==> OpIds(op) <= known
    ensures Consistent(AfterAll(s, msgs)) && AllLogged(AfterAll(s, msgs)) && Within(AfterAll(s, msgs).log, known)
    ensures AfterAll(s, msgs).logMax == s.logMax
  {
    RunConsistent(s, msgs);
    hide Next, Consistent, LogOps, AllLogged, Within;
    if msgs == [] {
      EmptyIsLogged(s, known);
    } else {
      var n := |msgs| - 1;
      var mid := AfterAll(s, msgs[..n]);
      RunLogsAllWithin(s, msgs[..n], known);
      NextLogsAll(mid, msgs[n], known);
      KeepsCapacity(mid, msgs[n]);
    }
  }

  lemma EmptyIsLogged(s: State, known: set<FragmentId>)
    requires s.queue == [] && s.log == []
    ensures AllLogged(s) && Within(s.log, known)
  {
  }

  /** A run from the empty state that speaks of no more ids than the log can hold has every pooled
      fragment in the log, pending. */
  lemma RunLogsAll<Ledger>(s: State, msgs: seq<Message<Ledger>>)
    requires s.queue == [] && s.log == [] && |Mentioned(AllLogOps(s, msgs))| <= s.logMax
    ensures Consistent(AfterAll(s, msgs)) && AllLogged(AfterAll(s, msgs))
  {
    hide Consistent, AllLogged, Mentioned;
    var ops := AllLogOps(s, msgs);
    forall op | op in ops
      ensures OpIds(op) <= Mentioned(ops)
    {
      MentionedHas(ops, op);
    }
    RunLogsAllWithin(s, msgs, Mentioned(ops));
  }

  lemma PooledKeyIsLogged(s: State, id: FragmentId)
    requires AllLogged(s)
    ensures HasKey(s.queue, id) ==> L.HasId(s.log, id)
  {
    if HasKey(s.queue, id) {
      var k :| 0 <= k < |s.queue| && s.queue[k].0 == id;
      assert s.queue[k] in s.queue;
    }
  }

  /** After such a run a submitted fragment is missing from the summary only if its id is repeated in the batch. */
  lemma OnlyRepeatsVanish<Ledger>(s: State, msgs: seq<Message<Ledger>>, ctx: S.Context, room: nat, batch: seq<Pooled>,
                                  i: nat)
    requires s.queue == [] && s.log == [] && |Mentioned(AllLogOps(s, msgs))| <= s.logMax && i < |batch|
    requires ctx.log == AfterAll(s, msgs).log && S.Vanishes(ctx, AfterAll(s, msgs).queue, room, batch, i)
    ensures exists j :: 0 <= j < i && batch[j].0 == batch[i].0
  {
    hide Consistent, AllLogged, Mentioned, AfterAll, S.StoppedBefore, HasKey;
    RunLogsAll(s, msgs);
    PooledKeyIsLogged(AfterAll(s, msgs), batch[i].0);
  }

  /** The pending ids of a log. */
  ghost predicate IsPending(log: seq<L.Entry>, id: FragmentId) {
    exists e :: e in log && e.log.id == id && e.log.status.Pending?
  }

  /** An update to a decided status leaves no pending entry of its id, and no operation but an insertion makes one. */
  lemma StepPending(log: seq<L.Entry>, op: L.LogOp, capacity: nat, id: FragmentId)
    requires L.WellFormed(log, capacity) && (op.Update? ==> !op.status.Pending?)
    requires IsPending(L.Step(log, op, capacity), id)
    ensures (IsPending(log, id) && !(op.Update? && op.id == id)) || (op.Insert? && op.log.id == id)
  {
    hide L.WellFormed, L.Without, L.Prune;
    L.WellFormedIds(log, capacity);
    var e :| e in L.Step(log, op, capacity) && e.log.id == id && e.log.status.Pending?;
    match op
    case Insert(_) =>
    case Update(target, _, _) =>
      L.WithoutKeepsOthers(log, target);
      HasIdOf(log, target);
    case BranchSwitch(target) =>
      L.PruneKeeps(log, target);
  }

  ghost predicate Decides(op: L.LogOp) {
    L.Legal(op) && (op.Update? ==> !op.status.Pending?)
  }

  lemma {:induction false} StepsPending(log: seq<L.Entry>, ops: seq<L.LogOp>, capacity: nat, id: FragmentId)
    requires L.WellFormed(log, capacity) && forall op :: op in ops ==> Decides(op)
    requires IsPending(L.Steps(log, ops, capacity), id)
    ensures (IsPending(log, id) && forall op :: op in ops && op.Update? ==> op.id != id)
            || exists op :: op in ops && op.Insert? && op.log.id == id
    decreases |ops|
  {
    hide L.WellFormed, L.Step, IsPending;
    if ops != [] {
      assert ops == [ops[0]] + ops[1..] && Decides(ops[0]);
      L.StepWellFormed(log, ops[0], capacity);
      StepsPending(L.Step(log, ops[0], capacity), ops[1..], capacity, id);
      if IsPending(L.Step(log, ops[0], capacity), id) {
        StepPending(log, ops[0], capacity, id);
      }
    }
  }

  /** The ids a selection has put into a block. */
  ghost function ChosenIds<Ledger>(s: State, msg: Message<Ledger>): set<FragmentId> {
    if msg.SelectTransactions? then set p | p in Pick(s.queue, Fates(s, msg), IsChosen) :: p.0 else {}
  }

  ghost function AllChosenIds<Ledger>(s: State, msgs: seq<Message<Ledger>>): set<FragmentId> {
    if msgs == [] then {}
    else var n := |msgs| - 1; AllChosenIds(s, msgs[..n]) + ChosenIds(AfterAll(s, msgs[..n]), msgs[n])
  }

  /** Whatever is logged pending is pooled, or was chosen. */
  ghost predicate Accounted(s: State, chosen: set<FragmentId>) {
    forall id :: IsPending(s.log, id) ==> id in PooledIds(s) || id in chosen
  }

  lemma OpsDecide<Ledger>(s: State, msg: Message<Ledger>, op: L.LogOp)
    requires op in LogOps(s, msg)
    ensures Decides(op)
    ensures op.Insert? ==> exists p :: p in Joining(s, msg) && p.0 == op.log.id
  {
    hide Retain, Pick, S.AcceptedOf, S.Judge, Fates, ExpiredInOrder, RejectionUpdates;
    match msg
    case SendTransactions(_, _, _, _, _) =>
      var joining := Joining(s, msg);
      var i :| 0 <= i < |joining| && LogOps(s, msg)[i] == op;
      assert joining[i] in joining;
    case RemoveTransactions(_, _, _, _) =>
    case BranchSwitch(_) =>
    case SelectTransactions(_, _, _, date) =>
      UpdatesReject(s.queue, Fates(s, msg), date, op);
  }

  lemma {:induction false} UpdatesReject(queue: seq<Pooled>, fates: seq<Fate>, date: BlockDate, op: L.LogOp)
    requires |queue| == |fates| && op in RejectionUpdates(queue, fates, date)
    ensures op.Update? && op.status.Rejected?
  {
    var n := |queue| - 1;
    if op in RejectionUpdates(queue[..n], fates[..n], date) {
      UpdatesReject(queue[..n], fates[..n], date, op);
    }
  }

  lemma {:induction false} DroppedAreUpdated(queue: seq<Pooled>, fates: seq<Fate>, date: BlockDate, p: Pooled)
    requires |queue| == |fates| && p in Pick(queue, fates, IsDropped)
    ensures exists op :: op in RejectionUpdates(queue, fates, date) && op.Update? && op.id == p.0
  {
    if queue != [] {
      var n := |queue| - 1;
      assert queue == queue[..n] + [queue[n]] && fates == fates[..n] + [fates[n]];
      PickAppend(queue[..n], fates[..n], queue[n], fates[n], IsDropped);
      var ops := RejectionUpdates(queue, fates, date);
      if p in Pick(queue[..n], fates[..n], IsDropped) {
        DroppedAreUpdated(queue[..n], fates[..n], date, p);
        var op :| op in RejectionUpdates(queue[..n], fates[..n], date) && op.Update? && op.id == p.0;
        assert op in ops;
      } else {
        assert ops[|ops| - 1].id == p.0;
      }
    }
  }

  /** A fragment that leaves the pool is chosen, or its fate is logged. */
  lemma LeavingIsLogged<Ledger>(s: State, msg: Message<Ledger>, p: Pooled)
    requires DistinctKeys(s.queue) && p in s.queue
    ensures || p in Next(s, msg).queue || p.0 in ChosenIds(s, msg)
            || exists op :: op in LogOps(s, msg) && op.Update? && op.id == p.0
  {
    hide Retain, Pick, S.AcceptedOf, S.Judge, Fates, LogRejections, L.ModifyAll, L.InsertAll, L.Prune, ExpiredInOrder;
    hide RejectionUpdates, DistinctKeys;
    match msg
    case SendTransactions(_, _, _, _, _) =>
    case BranchSwitch(_) =>
    case RemoveTransactions(ids, date, block, today) =>
      var rest := Retain(s.queue, NotIn(ids));
      RetainFacts(s.queue, NotIn(ids));
      RetainFacts(rest, NotExpired(today));
      var confirmed := Updates(ids, L.InABlock(date, block), date);
      var expired := Updates(ExpiredInOrder(rest, today), L.Rejected("fragment expired"), today);
      if p.0 in ids {
        var i :| 0 <= i < |ids| && ids[i] == p.0;
        assert confirmed[i] in confirmed + expired;
      } else if Expired(p, today) {
        ExpiredIsListed(rest, today, p);
        var i :| 0 <= i < |expired| && ExpiredInOrder(rest, today)[i] == p.0;
        assert expired[i] in confirmed + expired;
      }
    case SelectTransactions(_, _, _, date) =>
      PickPartitions(s.queue, Fates(s, msg));
      assert p in multiset(s.queue);
      if p in Pick(s.queue, Fates(s, msg), IsDropped) {
        DroppedAreUpdated(s.queue, Fates(s, msg), date, p);
      }
  }

  lemma ExpiredIsListed(queue: seq<Pooled>, date: BlockDate, p: Pooled)
    requires DistinctKeys(queue) && p in queue && Expired(p, date)
    ensures p.0 in ExpiredInOrder(queue, date)
  {
    hide OrderedSet.TakeWhile, ExpiryList, Views, DistinctKeys, TotalSize;
    var timeouts := ExpiryList(queue);
    ExpiryListViews(queue);
    var items := OrderedSet.TakeWhile(timeouts, (t: TimeoutItem) => t.validUntil.Before(date));
    ExpiredPrefix(queue, timeouts, TotalSize(queue), date, items);
    ExpiredIds(queue, items, date);
    assert ExpiredId(queue, p.0, date);
  }

  lemma NextAccounted<Ledger>(s: State, msg: Message<Ledger>, chosen: set<FragmentId>)
    requires Consistent(s) && Accounted(s, chosen)
    ensures Accounted(Next(s, msg), chosen + ChosenIds(s, msg))
  {
    hide Next, LogOps, Joining, L.WellFormed, DistinctKeys, PendingIn, IsPending, ChosenIds, Decides;
    NextIsSteps(s, msg);
    forall op | op in LogOps(s, msg)
      ensures Decides(op)
      ensures op.Insert? ==> exists p :: p in Joining(s, msg) && p.0 == op.log.id
    {
      OpsDecide(s, msg, op);
    }
    forall id | IsPending(Next(s, msg).log, id)
      ensures id in PooledIds(Next(s, msg)) || id in chosen + ChosenIds(s, msg)
    {
      StepsPending(s.log, LogOps(s, msg), s.logMax, id);
      if exists op :: op in LogOps(s, msg) && op.Insert? && op.log.id == id {
        var p :| p in Joining(s, msg) && p.0 == id;
        JoiningIsPooled(s, msg, p);
      } else if id !in chosen {
        var p :| p in s.queue && p.0 == id;
        LeavingIsLogged(s, msg, p);
      }
    }
  }

  lemma JoiningIsPooled<Ledger>(s: State, msg: Message<Ledger>, p: Pooled)
    requires p in Joining(s, msg)
    ensures p in Next(s, msg).queue
  {
    hide S.AcceptedOf, S.Judge, L.InsertAll;
  }

  /** Over any run from the empty state, whatever is logged pending is pooled or was chosen by a selection. */
  lemma {:induction false} RunAccounted<Ledger>(s: State, msgs: seq<Message<Ledger>>)
    requires s.queue == [] && s.log == []
    ensures Accounted(AfterAll(s, msgs), AllChosenIds(s, msgs))
  {
    hide Next, Consistent, Accounted, ChosenIds;
    if msgs == [] {
      EmptyIsAccounted(s);
    } else {
      var n := |msgs| - 1;
      RunAccounted(s, msgs[..n]);
      EmptyIsConsistent(s);
      RunConsistent(s, msgs[..n]);
      NextAccounted(AfterAll(s, msgs[..n]), msgs[n], AllChosenIds(s, msgs[..n]));
    }
  }

  lemma EmptyIsAccounted(s: State)
    requires s.log == []
    ensures Accounted(s, {})
  {
  }

  lemma EmptyIsConsistent(s: State)
    requires s.queue == [] && s.log == []
    ensures Consistent(s)
  {
  }

  /** The other half: a fragment chosen by a selection leaves the pool, and as long as its entry stays cached it
      stays pending, so that submitting it again is refused. */
  lemma ChosenStaysPending<Ledger>(s: State, msg: Message<Ledger>, p: Pooled, check: BlockDate -> S.DateCheck)
    requires Consistent(s) && msg.SelectTransactions? && p in Pick(s.queue, Fates(s, msg), IsChosen)
    ensures !HasKey(Next(s, msg).queue, p.0) && PendingIn(Next(s, msg).log, {p.0})
    ensures L.HasId(Next(s, msg).log, p.0) ==> S.Filter(Next(s, msg).log, p, check) == Some(S.FragmentAlreadyInLog)
  {
    hide L.WellFormed, Pick, Fates, LogRejections, RejectionUpdates;
    var fates := Fates(s, msg);
    PickFacts(s.queue, fates, IsChosen);
    forall q | q in Pick(s.queue, fates, IsKept)
      ensures q.0 != p.0
    {
      ChosenApart(s.queue, fates, p, q, IsKept);
    }
    forall op | op in LogOps(s, msg)
      ensures Spares(op, {p.0})
    {
      RejectionsAreDropped(s.queue, fates, msg.date, op);
      var q :| q in Pick(s.queue, fates, IsDropped) && q.0 == op.id;
      ChosenApart(s.queue, fates, p, q, IsDropped);
    }
    NextIsSteps(s, msg);
    assert p.0 in PooledIds(s);
    StepsKeep(s.log, LogOps(s, msg), s.logMax, {p.0}, {});
  }

  lemma {:induction false} ChosenApart(queue: seq<Pooled>, fates: seq<Fate>, p: Pooled, q: Pooled, other: Fate -> bool)
    requires |queue| == |fates| && DistinctKeys(queue) && (forall f :: !(IsChosen(f) && other(f)))
    requires p in Pick(queue, fates, IsChosen) && q in Pick(queue, fates, other)
    ensures p.0 != q.0
  {
    PickFacts(queue[1..], fates[1..], IsChosen);
    PickFacts(queue[1..], fates[1..], other);
    if p in Pick(queue[1..], fates[1..], IsChosen) && q in Pick(queue[1..], fates[1..], other) {
      ChosenApart(queue[1..], fates[1..], p, q, other);
    }
  }

  const EVM: Pooled := (7, Fragment(Evm, 1, BlockDate(0, 0), true, 0))

  const EVM_PENDING: L.Entry := L.Entry(L.FragmentLog(7, L.Rest, L.Pending), None)

  lemma SubmitEvm(check: BlockDate -> S.DateCheck, sends: nat -> bool)
    ensures var msg: Message<int> := SendTransactions(L.Rest, [EVM], false, check, sends);
            Next(State([], [], 1, 1), msg) == State([EVM], [EVM_PENDING], 1, 1)
  {
    var s := State([], [], 1, 1);
    var msg: Message<int> := SendTransactions(L.Rest, [EVM], false, check, sends);
    var none: seq<Pooled> := [];
    assert [EVM][1..] == none;
    assert Verdicts(s, msg) == [S.Accepted];
    var accepted: seq<S.Verdict>, rest: seq<S.Verdict> := [S.Accepted], [];
    assert accepted[1..] == rest && S.AcceptedOf(none, rest) == none;
    assert Joining(s, msg) == [EVM];
    var logs := S.PendingLogs([EVM], L.Rest);
    assert logs == [EVM_PENDING.log];
    var more: seq<L.FragmentLog> := [];
    assert logs[1..] == more && L.InsertPending([], logs[0], 1) == [EVM_PENDING];
    assert L.InsertAll([EVM_PENDING], more, 1) == [EVM_PENDING];
  }

  lemma ChooseEvm(rules: Rules<int>, races: nat -> Race, date: BlockDate)
    requires rules.contentMax(0) == 1 && rules.apply(0, EVM.1) == Applied(0) && races(0) == InTime
    ensures var s, msg := State([EVM], [EVM_PENDING], 1, 1), SelectTransactions(0, rules, races, date);
            Pick(s.queue, Fates(s, msg), IsChosen) == [EVM] && Next(s, msg) == State([], [EVM_PENDING], 1, 1)
  {
    var s, msg := State([EVM], [EVM_PENDING], 1, 1), SelectTransactions(0, rules, races, date);
    var none: seq<Pooled> := [];
    assert [EVM][1..] == none && [EVM][..0] == none;
    assert Fates(s, msg) == [Chosen];
    assert Pick(s.queue, [Chosen], IsKept) == [];
    assert LogRejections(s.log, none, [], date, 1) == s.log;
  }

  /** Submitted, chosen for a block, and submitted again: refused as already logged, although it is not pooled. */
  lemma ChosenIsRefusedAgain(check: BlockDate -> S.DateCheck, sends: nat -> bool, rules: Rules<int>,
                             races: nat -> Race, date: BlockDate)
    requires rules.contentMax(0) == 1 && rules.apply(0, EVM.1) == Applied(0) && races(0) == InTime
    ensures var msgs := [SendTransactions(L.Rest, [EVM], false, check, sends),
                         SelectTransactions(0, rules, races, date)];
            var s := AfterAll(State([], [], 1, 1), msgs);
            s.queue == [] && s.log == [EVM_PENDING] && S.Filter(s.log, EVM, check) == Some(S.FragmentAlreadyInLog)
  {
    var s := State([], [], 1, 1);
    var send: Message<int> := SendTransactions(L.Rest, [EVM], false, check, sends);
    var select := SelectTransactions(0, rules, races, date);
    var none: seq<Message<int>> := [];
    hide Next;
    SubmitEvm(check, sends);
    ChooseEvm(rules, races, date);
    assert [send, select][..1] == [send] && [send][..0] == none;
    assert AfterAll(s, none) == s && AfterAll(s, [send]) == Next(s, send);
    assert [EVM_PENDING][0].log.id == 7 && L.HasId([EVM_PENDING], 7);
  }
}
