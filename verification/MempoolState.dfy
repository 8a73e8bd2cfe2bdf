/** What each message does to the pool and the status log, and what every run of messages keeps. */
module MempoolState {
  import opened Base
  import opened Pool
  import L = Logs
  import opened Selection
  import S = Submission
  import Sub = Subsequence

  datatype Message<!Ledger> =
    | SendTransactions(origin: L.Origin, batch: seq<Pooled>, failFast: bool,
                       check: BlockDate -> S.DateCheck, sends: nat -> bool)
    | RemoveTransactions(ids: seq<FragmentId>, date: BlockDate, block: HeaderHash, today: BlockDate)
    | BranchSwitch(forkDate: BlockDate)
    | SelectTransactions(ledger: Ledger, rules: Rules<Ledger>, races: nat -> Race, date: BlockDate)

  /** The pooled fragments, oldest first, and the log, most recently used first, with their capacities. */
  datatype State = State(queue: seq<Pooled>, log: seq<L.Entry>, poolMax: nat, logMax: nat)

  function NotIn(ids: seq<FragmentId>): Pooled -> bool {
    (p: Pooled) => p.0 !in ids
  }

  function NotExpired(date: BlockDate): Pooled -> bool {
    (p: Pooled) => !Expired(p, date)
  }

  /** The fragments that are taken out by `Retain`. */
  function Discard(queue: seq<Pooled>, p: Pooled -> bool): seq<Pooled> {
    if queue == [] then []
    else (if p(queue[0]) then [] else [queue[0]]) + Discard(queue[1..], p)
  }

  function Room(s: State): nat {
    if |s.queue| <= s.poolMax then s.poolMax - |s.queue| else 0
  }

  function Verdicts<Ledger>(s: State, msg: Message<Ledger>): (v: seq<S.Verdict>)
    requires msg.SendTransactions?
    ensures |v| == |msg.batch|
  {
    S.Judge(S.Context(s.log, msg.check, msg.failFast), s.queue, Room(s), msg.batch, false)
  }

  function Fates<Ledger>(s: State, msg: Message<Ledger>): (fates: seq<Fate>)
    requires msg.SelectTransactions?
    ensures |fates| == |s.queue|
  {
    Decide(s.queue, msg.ledger, msg.rules.contentMax(msg.ledger), msg.rules, msg.races, 0)
  }

  /** The fragments a message brings in. */
  function Joining<Ledger>(s: State, msg: Message<Ledger>): seq<Pooled> {
    if msg.SendTransactions? then S.AcceptedOf(msg.batch, Verdicts(s, msg)) else []
  }

  /** Every fragment it brings in can be handed on. */
  predicate Succeeds<Ledger>(s: State, msg: Message<Ledger>) {
    msg.SendTransactions? ==> forall i :: 0 <= i < |Joining(s, msg)| ==> msg.sends(i)
  }

  /** The fragments it takes out: confirmed or expired ones, those of a new block, those the ledger refused. */
  function Leaving<Ledger>(s: State, msg: Message<Ledger>): seq<Pooled> {
    match msg
    case RemoveTransactions(ids, _, _, today) =>
      Discard(s.queue, NotIn(ids)) + Discard(Retain(s.queue, NotIn(ids)), NotExpired(today))
    case SelectTransactions(_, _, _, _) =>
      Pick(s.queue, Fates(s, msg), IsChosen) + Pick(s.queue, Fates(s, msg), IsDropped)
    case _ => []
  }

  /** What the pool and the log hold after a message. */
  ghost function Next<Ledger>(s: State, msg: Message<Ledger>): State {
    match msg
    case SendTransactions(origin, _, _, _, _) =>
      s.(queue := s.queue + Joining(s, msg),
         log := L.InsertAll(s.log, S.PendingLogs(Joining(s, msg), origin), s.logMax))
    case RemoveTransactions(ids, date, block, today) =>
      var rest := Retain(s.queue, NotIn(ids));
      s.(queue := Retain(rest, NotExpired(today)),
         log := L.ModifyAll(L.ModifyAll(s.log, ids, L.InABlock(date, block), date, s.logMax),
                            ExpiredInOrder(rest, today), L.Rejected("fragment expired"), today, s.logMax))
    case BranchSwitch(forkDate) => s.(log := L.Prune(s.log, forkDate))
    case SelectTransactions(_, _, _, date) =>
      s.(queue := Pick(s.queue, Fates(s, msg), IsKept),
         log := LogRejections(s.log, s.queue, Fates(s, msg), date, s.logMax))
  }

  ghost function AfterAll<Ledger>(s: State, msgs: seq<Message<Ledger>>): State {
    if msgs == [] then s else Next(AfterAll(s, msgs[..|msgs| - 1]), msgs[|msgs| - 1])
  }

  ghost function Joined<Ledger>(s: State, msgs: seq<Message<Ledger>>): seq<Pooled> {
    if msgs == [] then []
    else var n := |msgs| - 1; Joined(s, msgs[..n]) + Joining(AfterAll(s, msgs[..n]), msgs[n])
  }

  ghost function Left<Ledger>(s: State, msgs: seq<Message<Ledger>>): seq<Pooled> {
    if msgs == [] then []
    else var n := |msgs| - 1; Left(s, msgs[..n]) + Leaving(AfterAll(s, msgs[..n]), msgs[n])
  }

  lemma {:induction false} RetainSplits(queue: seq<Pooled>, p: Pooled -> bool)
    ensures multiset(queue) == multiset(Retain(queue, p)) + multiset(Discard(queue, p))
  {
    if queue != [] {
      RetainSplits(queue[1..], p);
      assert queue == [queue[0]] + queue[1..];
    }
  }

  lemma {:induction false} RetainKeepsOrder(queue: seq<Pooled>, p: Pooled -> bool)
    ensures Sub.IsSubsequence(Retain(queue, p), queue)
  {
    hide Sub.IsSubsequence;
    if queue == [] {
      Sub.Reflexive(queue);
    } else {
      RetainKeepsOrder(queue[1..], p);
      Sub.Extend(queue[0], Retain(queue[1..], p), queue[1..]);
      assert queue == [queue[0]] + queue[1..] && [] + Retain(queue[1..], p) == Retain(queue[1..], p);
    }
  }

  lemma {:induction false} PickKeepsOrder(queue: seq<Pooled>, fates: seq<Fate>, wanted: Fate -> bool)
    requires |queue| == |fates|
    ensures Sub.IsSubsequence(Pick(queue, fates, wanted), queue)
  {
    hide Sub.IsSubsequence;
    if queue == [] {
      Sub.Reflexive(queue);
    } else {
      var rest := Pick(queue[1..], fates[1..], wanted);
      PickKeepsOrder(queue[1..], fates[1..], wanted);
      Sub.Extend(queue[0], rest, queue[1..]);
      assert queue == [queue[0]] + queue[1..] && [] + rest == rest;
    }
  }

  /** One message conserves fragments and never reorders those that stay. */
  lemma NextConserves<Ledger>(s: State, msg: Message<Ledger>)
    ensures multiset(Next(s, msg).queue) + multiset(Leaving(s, msg)) == multiset(s.queue) + multiset(Joining(s, msg))
    ensures Sub.IsSubsequence(Next(s, msg).queue, s.queue + Joining(s, msg))
  {
    hide Retain, Discard, Pick, Sub.IsSubsequence, LogRejections, L.ModifyAll, L.InsertAll, L.Prune, ExpiredInOrder,
         Verdicts, Fates, S.AcceptedOf, NotIn, NotExpired;
    assert s.queue + [] == s.queue;
    Sub.Reflexive(s.queue + Joining(s, msg));
    match msg
    case SendTransactions(_, _, _, _, _) =>
    case BranchSwitch(_) =>
    case RemoveTransactions(ids, _, _, today) =>
      var rest := Retain(s.queue, NotIn(ids));
      RetainSplits(s.queue, NotIn(ids));
      RetainSplits(rest, NotExpired(today));
      RetainKeepsOrder(s.queue, NotIn(ids));
      RetainKeepsOrder(rest, NotExpired(today));
      Sub.Transitive(Next(s, msg).queue, rest, s.queue);
    case SelectTransactions(_, _, _, _) =>
      PickPartitions(s.queue, Fates(s, msg));
      PickKeepsOrder(s.queue, Fates(s, msg), IsKept);
  }

  lemma Balance<T>(start: multiset<T>, in1: multiset<T>, out1: multiset<T>, mid: multiset<T>, in2: multiset<T>,
                   out2: multiset<T>, end: multiset<T>)
    requires mid + out1 == start + in1 && end + out2 == mid + in2
    ensures end + (out1 + out2) == start + (in1 + in2)
  {
    assert end + (out1 + out2) == (end + out2) + out1;
    assert start + (in1 + in2) == (start + in1) + in2;
  }

  /** Over any run each fragment that joined is still pooled or left once, and the pool is always
      in the order of joining, whatever selections drained it and put back. */
  lemma {:induction false} RunConserves<Ledger>(s: State, msgs: seq<Message<Ledger>>)
    ensures multiset(AfterAll(s, msgs).queue) + multiset(Left(s, msgs)) == multiset(s.queue) + multiset(Joined(s, msgs))
    ensures Sub.IsSubsequence(AfterAll(s, msgs).queue, s.queue + Joined(s, msgs))
  {
    hide Sub.IsSubsequence, Next, Joining, Leaving;
    if msgs == [] {
      Sub.Reflexive(s.queue);
      assert s.queue + [] == s.queue;
    } else {
      var n := |msgs| - 1;
      var mid := AfterAll(s, msgs[..n]);
      var joining := Joining(mid, msgs[n]);
      RunConserves(s, msgs[..n]);
      NextConserves(mid, msgs[n]);
      Sub.Append(mid.queue, s.queue + Joined(s, msgs[..n]), joining);
      assert s.queue + Joined(s, msgs) == s.queue + Joined(s, msgs[..n]) + joining;
      Balance(multiset(s.queue), multiset(Joined(s, msgs[..n])), multiset(Left(s, msgs[..n])), multiset(mid.queue),
              multiset(joining), multiset(Leaving(mid, msgs[n])), multiset(AfterAll(s, msgs).queue));
      Sub.Transitive(AfterAll(s, msgs).queue, mid.queue + joining, s.queue + Joined(s, msgs));
    }
  }

  function Inserts(logs: seq<L.FragmentLog>): (ops: seq<L.LogOp>)
    ensures |ops| == |logs| && forall i :: 0 <= i < |logs| ==> ops[i] == L.Insert(logs[i])
  {
    seq(|logs|, i requires 0 <= i < |logs| => L.Insert(logs[i]))
  }

  function Updates(ids: seq<FragmentId>, status: L.Status, date: BlockDate): (ops: seq<L.LogOp>)
    ensures |ops| == |ids| && forall i :: 0 <= i < |ids| ==> ops[i] == L.Update(ids[i], status, date)
  {
    seq(|ids|, i requires 0 <= i < |ids| => L.Update(ids[i], status, date))
  }

  function RejectionUpdates(queue: seq<Pooled>, fates: seq<Fate>, date: BlockDate): (ops: seq<L.LogOp>)
    requires |queue| == |fates|
    ensures forall op :: op in ops ==> op.Update?
  {
    if queue == [] then []
    else var n := |queue| - 1;
         RejectionUpdates(queue[..n], fates[..n], date) +
         if fates[n].Dropped? then [L.Update(queue[n].0, L.Rejected(fates[n].reason), date)] else []
  }

  /** The log operations a message comes down to. */
  ghost function LogOps<Ledger>(s: State, msg: Message<Ledger>): (ops: seq<L.LogOp>)
    ensures forall op :: op in ops ==> L.Legal(op)
  {
    match msg
    case SendTransactions(origin, _, _, _, _) => Inserts(S.PendingLogs(Joining(s, msg), origin))
    case RemoveTransactions(ids, date, block, today) =>
      Updates(ids, L.InABlock(date, block), date) +
      Updates(ExpiredInOrder(Retain(s.queue, NotIn(ids)), today), L.Rejected("fragment expired"), today)
    case BranchSwitch(forkDate) => [L.BranchSwitch(forkDate)]
    case SelectTransactions(_, _, _, date) => RejectionUpdates(s.queue, Fates(s, msg), date)
  }

  ghost function AllLogOps<Ledger>(s: State, msgs: seq<Message<Ledger>>): (ops: seq<L.LogOp>)
    ensures forall op :: op in ops ==> L.Legal(op)
  {
    if msgs == [] then []
    else var n := |msgs| - 1; AllLogOps(s, msgs[..n]) + LogOps(AfterAll(s, msgs[..n]), msgs[n])
  }

  lemma {:induction false} InsertAllIsSteps(entries: seq<L.Entry>, logs: seq<L.FragmentLog>, capacity: nat)
    ensures L.InsertAll(entries, logs, capacity) == L.Steps(entries, Inserts(logs), capacity)
    decreases |logs|
  {
    hide L.InsertPending;
    if logs != [] {
      InsertAllIsSteps(L.InsertPending(entries, logs[0], capacity), logs[1..], capacity);
      assert Inserts(logs)[1..] == Inserts(logs[1..]);
    }
  }

  lemma {:induction false} ModifyAllIsSteps(entries: seq<L.Entry>, ids: seq<FragmentId>, status: L.Status,
                                            date: BlockDate, capacity: nat)
    ensures L.ModifyAll(entries, ids, status, date, capacity) == L.Steps(entries, Updates(ids, status, date), capacity)
    decreases |ids|
  {
    hide L.Modify;
    if ids != [] {
      ModifyAllIsSteps(L.Modify(entries, ids[0], status, date, capacity), ids[1..], status, date, capacity);
      assert Updates(ids, status, date)[1..] == Updates(ids[1..], status, date);
    }
  }

  lemma {:induction false} RejectionsAreSteps(entries: seq<L.Entry>, queue: seq<Pooled>, fates: seq<Fate>,
                                              date: BlockDate, capacity: nat)
    requires |queue| == |fates|
    ensures LogRejections(entries, queue, fates, date, capacity) ==
            L.Steps(entries, RejectionUpdates(queue, fates, date), capacity)
  {
    hide L.Modify;
    if queue != [] {
      var n := |queue| - 1;
      var front := RejectionUpdates(queue[..n], fates[..n], date);
      RejectionsAreSteps(entries, queue[..n], fates[..n], date, capacity);
      if fates[n].Dropped? {
        L.StepsAppend(entries, front, [L.Update(queue[n].0, L.Rejected(fates[n].reason), date)], capacity);
      } else {
        assert front + [] == front;
      }
    }
  }

  lemma NextIsSteps<Ledger>(s: State, msg: Message<Ledger>)
    ensures Next(s, msg).log == L.Steps(s.log, LogOps(s, msg), s.logMax)
  {
    hide L.InsertAll, L.ModifyAll, L.Prune, L.Modify, L.InsertPending, Retain, ExpiredInOrder, LogRejections, Pick,
         Verdicts, Fates, S.AcceptedOf;
    match msg
    case SendTransactions(origin, _, _, _, _) =>
      InsertAllIsSteps(s.log, S.PendingLogs(Joining(s, msg), origin), s.logMax);
    case RemoveTransactions(ids, date, block, today) =>
      var expired := ExpiredInOrder(Retain(s.queue, NotIn(ids)), today);
      var confirmed := Updates(ids, L.InABlock(date, block), date);
      ModifyAllIsSteps(s.log, ids, L.InABlock(date, block), date, s.logMax);
      ModifyAllIsSteps(L.Steps(s.log, confirmed, s.logMax), expired, L.Rejected("fragment expired"), today, s.logMax);
      L.StepsAppend(s.log, confirmed, Updates(expired, L.Rejected("fragment expired"), today), s.logMax);
    case BranchSwitch(forkDate) =>
    case SelectTransactions(_, _, _, date) =>
      RejectionsAreSteps(s.log, s.queue, Fates(s, msg), date, s.logMax);
  }

  /** The log of any run is that of a run of legal log operations, so what holds of those holds of it. */
  lemma {:induction false} LogIsRun<Ledger>(s: State, msgs: seq<Message<Ledger>>)
    requires s.log == []
    ensures AfterAll(s, msgs).log == L.Run(AllLogOps(s, msgs), s.logMax) && AfterAll(s, msgs).logMax == s.logMax
  {
    hide Next, LogOps, L.Run;
    L.RunIsSteps(AllLogOps(s, msgs), s.logMax);
    if msgs != [] {
      var n := |msgs| - 1;
      LogIsRun(s, msgs[..n]);
      L.RunIsSteps(AllLogOps(s, msgs[..n]), s.logMax);
      NextIsSteps(AfterAll(s, msgs[..n]), msgs[n]);
      KeepsCapacity(AfterAll(s, msgs[..n]), msgs[n]);
      L.StepsAppend([], AllLogOps(s, msgs[..n]), LogOps(AfterAll(s, msgs[..n]), msgs[n]), s.logMax);
    }
  }

  lemma KeepsCapacity<Ledger>(s: State, msg: Message<Ledger>)
    ensures Next(s, msg).logMax == s.logMax
  {
  }
}
