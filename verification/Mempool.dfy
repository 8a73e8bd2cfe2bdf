/** The fragment task: one message at a time against the pool and the status log. */
module Mempool {
  import opened Base
  import opened IndexedDeque
  import opened Pool
  import L = Logs
  import opened Selection
  import S = Submission
  import Sub = Subsequence
  import opened MempoolState
  import C = Consistency

  class Mempool {
    const logs: L.Logs
    const pool: Pool

    ghost predicate Valid()
      reads this, logs, pool, pool.entries, pool.entries.repr
    {
      pool.Valid() && logs.Valid() && C.Consistent(Now())
    }

    ghost function Now(): State
      reads this, logs, pool, pool.entries
    {
      State(pool.Queue(), logs.entries, pool.maxEntries, logs.capacity)
    }

    constructor (poolEntries: nat, logEntries: nat)
      ensures Valid() && fresh(logs) && fresh(pool) && fresh(pool.entries) && fresh(pool.entries.repr)
      ensures Now() == State([], [], poolEntries, if logEntries < poolEntries then poolEntries else logEntries)
    {
      logs := new L.Logs(if logEntries < poolEntries then poolEntries else logEntries);
      pool := new Pool(poolEntries);
    }

    /** Takes out what a block contains, then what has expired, and records both. */
    method RemoveTransactions<Ledger>(ids: seq<FragmentId>, date: BlockDate, block: HeaderHash, today: BlockDate,
                                      ghost msg: Message<Ledger>)
      requires Valid() && msg == Message.RemoveTransactions(ids, date, block, today)
      modifies logs, pool, pool.entries, pool.entries.repr
      ensures Valid() && Now() == Next(old(Now()), msg)
      ensures fresh(pool.entries.repr - old(pool.entries.repr))
    {
      hide Linked, Indexed, Views, L.WellFormed, L.ModifyAll, Retain, Expired, ExpiredInOrder, C.Consistent;
      C.NextConsistent(Now(), msg);
      pool.RemoveAll(ids);
      RetainSame(old(pool.Queue()), (p: Pooled) => p.0 !in ids, NotIn(ids));
      logs.ModifyEach(ids, L.InABlock(date, block), date);
      ghost var rest := pool.Queue();
      var expired := pool.RemoveExpired(today);
      RetainSame(rest, (p: Pooled) => !Expired(p, today), NotExpired(today));
      logs.ModifyEach(expired, L.Rejected("fragment expired"), today);
    }

    /** Fails, after doing its work, only when an accepted fragment cannot be handed to the network task. */
    method Handle<Ledger>(msg: Message<Ledger>) returns (ok: bool)
      requires Valid()
      modifies logs, pool, pool.entries, pool.entries.repr
      ensures Valid() && Now() == Next(old(Now()), msg)
      ensures ok <==> Succeeds(old(Now()), msg)
      ensures fresh(pool.entries.repr - old(pool.entries.repr))
    {
      hide Linked, Indexed, Views, L.WellFormed, L.ModifyAll, L.InsertAll, L.Prune, Pick, Decide, LogRejections,
           Retain, S.Judge, S.AcceptedOf, C.Consistent;
      C.NextConsistent(Now(), msg);
      ok := true;
      match msg
      case SendTransactions(origin, batch, failFast, check, sends) =>
        var r := S.InsertAndPropagateAll(origin, batch, failFast, check, sends, logs, pool);
        ok := r.Some?;
      case RemoveTransactions(ids, date, block, today) =>
        RemoveTransactions(ids, date, block, today, msg);
      case BranchSwitch(forkDate) =>
        logs.RemoveLogsAfterDate(forkDate);
      case SelectTransactions(ledger, rules, races, date) =>
        var _, _, _ := Select(ledger, rules, races, date, logs, pool);
    }

    /** Whatever messages arrive, the three views of the pool agree, it never holds too many, and no
        fragment is lost, duplicated or overtaken. The task ends with the first message that fails. */
    method Run<Ledger>(msgs: seq<Message<Ledger>>) returns (n: nat)
      requires Valid()
      modifies logs, pool, pool.entries, pool.entries.repr
      ensures Valid() && n <= |msgs| && Now() == AfterAll(old(Now()), msgs[..n])
      ensures forall k :: 0 <= k < n - 1 ==> Succeeds(AfterAll(old(Now()), msgs[..k]), msgs[k])
      ensures n < |msgs| ==> n > 0 && !Succeeds(AfterAll(old(Now()), msgs[..n - 1]), msgs[n - 1])
      ensures Views(pool.Queue(), pool.timeoutQueue, pool.totalSizeBytes) && |pool.Queue()| <= pool.maxEntries
      ensures L.WellFormed(logs.entries, logs.capacity) && C.Consistent(Now())
      ensures multiset(pool.Queue()) + multiset(Left(old(Now()), msgs[..n])) ==
              multiset(old(pool.Queue())) + multiset(Joined(old(Now()), msgs[..n]))
      ensures Sub.IsSubsequence(pool.Queue(), old(pool.Queue()) + Joined(old(Now()), msgs[..n]))
    {
      hide Linked, Indexed, Views, L.WellFormed, C.Consistent, Next, Succeeds, Joined, Left, Joining, Sub.IsSubsequence;
      ghost var start := Now();
      n := 0;
      while n < |msgs|
        invariant 0 <= n <= |msgs|
        invariant Valid() && fresh(pool.entries.repr - old(pool.entries.repr))
        invariant Now() == AfterAll(start, msgs[..n])
        invariant forall k :: 0 <= k < n ==> Succeeds(AfterAll(start, msgs[..k]), msgs[k])
      {
        assert msgs[..n + 1][..n] == msgs[..n];
        var ok := Handle(msgs[n]);
        n := n + 1;
        if !ok {
          break;
        }
      }
      RunConserves(start, msgs[..n]);
    }
  }
}
