/** Submitting a batch of fragments to the mempool. */
module Submission {
  import opened Base
  import opened IndexedDeque
  import opened Pool
  import L = Logs

  datatype Reason =
    | FragmentAlreadyInLog
    | FragmentInvalid
    | PreviousFragmentInvalid
    | PoolOverflow
    | FragmentExpired
    | FragmentValidForTooLong

  /** The ledger's opinion of an expiry date, given its settings and the current block date. */
  datatype DateCheck = DateOk | TransactionExpired | TransactionValidForTooLong

  type Rejection = (FragmentId, Reason)

  datatype Summary = Summary(accepted: seq<FragmentId>, rejected: seq<Rejection>)

  predicate IsFragmentValid(f: Fragment) {
    match f.kind
    case Initial => false
    case OldUtxoDeclaration => false
    case Evm => true
    case Transactional => f.balanced
  }

  predicate IsNewTransaction(log: seq<L.Entry>, p: Pooled) {
    !L.HasId(log, p.0) && p.1.kind == Transactional
  }

  /** Not logged, and valid: an EVM fragment, or a balanced transaction in date. */
  predicate IsAdmissible(log: seq<L.Entry>, p: Pooled, check: BlockDate -> DateCheck) {
    && !L.HasId(log, p.0)
    && (p.1.kind.Evm? || (p.1.kind.Transactional? && check(p.1.validUntil).DateOk? && p.1.balanced))
  }

  function Filter(log: seq<L.Entry>, p: Pooled, check: BlockDate -> DateCheck): (r: Option<Reason>)
    ensures r != Some(PreviousFragmentInvalid) && r != Some(PoolOverflow)
    ensures r == Some(FragmentAlreadyInLog) <==> L.HasId(log, p.0)
    ensures r == Some(FragmentExpired) <==> IsNewTransaction(log, p) && check(p.1.validUntil) == TransactionExpired
    ensures r == Some(FragmentValidForTooLong) <==>
            IsNewTransaction(log, p) && check(p.1.validUntil) == TransactionValidForTooLong
    ensures r == Some(FragmentInvalid) <==>
            || (!L.HasId(log, p.0) && (p.1.kind.Initial? || p.1.kind.OldUtxoDeclaration?))
            || (IsNewTransaction(log, p) && check(p.1.validUntil).DateOk? && !p.1.balanced)
    ensures r == None <==> IsAdmissible(log, p, check)
  {
    if L.HasId(log, p.0) then Some(FragmentAlreadyInLog)
    else if ExpiryDate(p.1).Some? && check(ExpiryDate(p.1).value) == TransactionExpired then Some(FragmentExpired)
    else if ExpiryDate(p.1).Some? && check(ExpiryDate(p.1).value) == TransactionValidForTooLong then
      Some(FragmentValidForTooLong)
    else if !IsFragmentValid(p.1) then Some(FragmentInvalid)
    else None
  }

  datatype Verdict = Accepted | Refused(reason: Reason) | AlreadyPooled

  /** Everything a submission depends on besides the batch and the pool. */
  datatype Context = Context(log: seq<L.Entry>, check: BlockDate -> DateCheck, failFast: bool) {
    predicate Stops(p: Pooled) {
      failFast && Filter(log, p, check) == Some(FragmentInvalid)
    }
  }

  /** The verdict on a fragment that is still read. */
  function Verdict1(ctx: Context, queue: seq<Pooled>, room: nat, p: Pooled): (v: Verdict)
    ensures v.Accepted? ==> room > 0
  {
    match Filter(ctx.log, p, ctx.check)
    case Some(reason) => Refused(reason)
    case None =>
      if room == 0 then Refused(PoolOverflow)
      else if HasKey(queue, p.0) then AlreadyPooled
      else Accepted
  }

  /** One verdict per position, reading the batch once from the left. */
  function Judge(ctx: Context, queue: seq<Pooled>, room: nat, batch: seq<Pooled>, stopped: bool): (v: seq<Verdict>)
    ensures |v| == |batch|
    decreases |batch|
  {
    if batch == [] then []
    else if stopped then
      [Refused(PreviousFragmentInvalid)] + Judge(ctx, queue, room, batch[1..], true)
    else
      var v := Verdict1(ctx, queue, room, batch[0]);
      [v] + if v.Accepted? then Judge(ctx, queue + [batch[0]], room - 1, batch[1..], false)
            else Judge(ctx, queue, room, batch[1..], ctx.Stops(batch[0]))
  }

  function AcceptedOf(batch: seq<Pooled>, v: seq<Verdict>): (r: seq<Pooled>)
    requires |batch| == |v|
  {
    if batch == [] then []
    else (if v[0].Accepted? then [batch[0]] else []) + AcceptedOf(batch[1..], v[1..])
  }

  function RefusedOf(batch: seq<Pooled>, v: seq<Verdict>): (r: seq<Rejection>)
    requires |batch| == |v|
  {
    if batch == [] then []
    else (if v[0].Refused? then [(batch[0].0, v[0].reason)] else []) + RefusedOf(batch[1..], v[1..])
  }

  function Tag(ps: seq<Pooled>, reason: Reason): (r: seq<Rejection>)
    ensures |r| == |ps| && forall i :: 0 <= i < |ps| ==> r[i] == (ps[i].0, reason)
  {
    seq(|ps|, i requires 0 <= i < |ps| => (ps[i].0, reason))
  }

  /** The filtering loop: what passes, what is rejected, and what a fail-fast stop leaves unread. */
  function FilterAll(ctx: Context, batch: seq<Pooled>): (seq<Pooled>, seq<Rejection>, seq<Pooled>) {
    if batch == [] then ([], [], [])
    else if ctx.Stops(batch[0]) then ([], [(batch[0].0, FragmentInvalid)], batch[1..])
    else
      var (passing, rejected, unread) := FilterAll(ctx, batch[1..]);
      match Filter(ctx.log, batch[0], ctx.check)
      case Some(reason) => (passing, [(batch[0].0, reason)] + rejected, unread)
      case None => ([batch[0]] + passing, rejected, unread)
  }

  lemma {:induction false} JudgeStopped(ctx: Context, queue: seq<Pooled>, room: nat, batch: seq<Pooled>)
    ensures var v := Judge(ctx, queue, room, batch, true);
            AcceptedOf(batch, v) == [] && RefusedOf(batch, v) == Tag(batch, PreviousFragmentInvalid)
  {
    if batch != [] {
      JudgeStopped(ctx, queue, room, batch[1..]);
    }
  }

  /** Filtering everything first and inserting afterwards accepts the same positions. */
  lemma {:induction false} PhasesAccept(ctx: Context, queue: seq<Pooled>, room: nat, batch: seq<Pooled>)
    ensures Admit(queue, FilterAll(ctx, batch).0, room).0 == AcceptedOf(batch, Judge(ctx, queue, room, batch, false))
    decreases |batch|
  {
    hide Filter, HasKey;
    if batch != [] {
      var p, rest := batch[0], batch[1..];
      var passing := FilterAll(ctx, rest).0;
      assert ([p] + passing)[1..] == passing;
      if ctx.Stops(p) {
        JudgeStopped(ctx, queue, room, rest);
      } else if Filter(ctx.log, p, ctx.check).None? && room > 0 && !HasKey(queue, p.0) {
        PhasesAccept(ctx, queue + [p], room - 1, rest);
      } else {
        PhasesAccept(ctx, queue, room, rest);
      }
    }
  }

  /** What the three phases reject, in the order they do. */
  function Rejections(ctx: Context, queue: seq<Pooled>, room: nat, batch: seq<Pooled>): (r: seq<Rejection>) {
    var (passing, rejected, unread) := FilterAll(ctx, batch);
    rejected + Tag(unread, PreviousFragmentInvalid) + Tag(Admit(queue, passing, room).1, PoolOverflow)
  }

  lemma RejectedByFilter(ctx: Context, queue: seq<Pooled>, room: nat, batch: seq<Pooled>)
    requires batch != [] && !ctx.Stops(batch[0]) && Filter(ctx.log, batch[0], ctx.check).Some?
    ensures Rejections(ctx, queue, room, batch) ==
            [(batch[0].0, Filter(ctx.log, batch[0], ctx.check).value)] + Rejections(ctx, queue, room, batch[1..])
  {
    hide Filter, HasKey, Admit;
  }

  lemma RejectedByOverflow(ctx: Context, queue: seq<Pooled>, batch: seq<Pooled>)
    requires batch != [] && !ctx.Stops(batch[0]) && Filter(ctx.log, batch[0], ctx.check).None?
    ensures multiset(Rejections(ctx, queue, 0, batch)) ==
            multiset{(batch[0].0, PoolOverflow)} + multiset(Rejections(ctx, queue, 0, batch[1..]))
  {
    hide Filter, HasKey;
    var p, x := batch[0], (batch[0].0, PoolOverflow);
    var (passing, rejected, unread) := FilterAll(ctx, batch[1..]);
    assert Tag([p] + passing, PoolOverflow) == [x] + Tag(passing, PoolOverflow);
    InsertMiddle(rejected + Tag(unread, PreviousFragmentInvalid), x, Tag(passing, PoolOverflow));
  }

  lemma NotRejected(ctx: Context, queue: seq<Pooled>, room: nat, batch: seq<Pooled>)
    requires batch != [] && !ctx.Stops(batch[0]) && Filter(ctx.log, batch[0], ctx.check).None? && room > 0
    ensures Rejections(ctx, queue, room, batch) ==
            if HasKey(queue, batch[0].0) then Rejections(ctx, queue, room, batch[1..])
            else Rejections(ctx, queue + [batch[0]], room - 1, batch[1..])
  {
    hide Filter, HasKey;
    var passing := FilterAll(ctx, batch[1..]).0;
    assert ([batch[0]] + passing)[1..] == passing;
  }

  lemma InsertMiddle<T>(a: seq<T>, x: T, b: seq<T>)
    ensures multiset(a + ([x] + b)) == multiset{x} + multiset(a + b)
  {
  }

  /** And it refuses the same positions for the same reasons. */
  lemma {:induction false} PhasesRefuse(ctx: Context, queue: seq<Pooled>, room: nat, batch: seq<Pooled>)
    ensures multiset(Rejections(ctx, queue, room, batch)) ==
            multiset(RefusedOf(batch, Judge(ctx, queue, room, batch, false)))
    decreases |batch|
  {
    hide Filter, HasKey, FilterAll, Admit, Rejections;
    if batch == [] {
      assert Rejections(ctx, queue, room, []) == [] by { EmptyBatch(ctx, queue, room); }
    } else if ctx.Stops(batch[0]) {
      StoppedRejections(ctx, queue, room, batch);
    } else {
      var p, rest := batch[0], batch[1..];
      var v := Judge(ctx, queue, room, batch, false);
      assert RefusedOf(batch, v) == (if v[0].Refused? then [(p.0, v[0].reason)] else []) + RefusedOf(rest, v[1..]);
      if v[0].Accepted? {
        PhasesRefuse(ctx, queue + [p], room - 1, rest);
      } else {
        PhasesRefuse(ctx, queue, room, rest);
      }
      if Filter(ctx.log, p, ctx.check).Some? {
        RejectedByFilter(ctx, queue, room, batch);
      } else if room == 0 {
        RejectedByOverflow(ctx, queue, batch);
      } else {
        NotRejected(ctx, queue, room, batch);
      }
    }
  }

  lemma EmptyBatch(ctx: Context, queue: seq<Pooled>, room: nat)
    ensures Rejections(ctx, queue, room, []) == []
  {
  }

  lemma StoppedRejections(ctx: Context, queue: seq<Pooled>, room: nat, batch: seq<Pooled>)
    requires batch != [] && ctx.Stops(batch[0])
    ensures Rejections(ctx, queue, room, batch) == RefusedOf(batch, Judge(ctx, queue, room, batch, false))
  {
    var p, rest := batch[0], batch[1..];
    JudgeStopped(ctx, queue, room, rest);
    assert Rejections(ctx, queue, room, batch) == [(p.0, FragmentInvalid)] + Tag(rest, PreviousFragmentInvalid);
  }

  function CountAccepted(v: seq<Verdict>): nat {
    if v == [] then 0 else (if v[0].Accepted? then 1 else 0) + CountAccepted(v[1..])
  }

  ghost predicate StoppedBefore(ctx: Context, batch: seq<Pooled>, i: nat)
    requires i <= |batch|
  {
    exists j :: 0 <= j < i && ctx.Stops(batch[j])
  }

  ghost predicate AcceptedEarlier(batch: seq<Pooled>, v: seq<Verdict>, i: nat)
    requires i < |batch| == |v|
  {
    exists j :: 0 <= j < i && v[j].Accepted? && batch[j].0 == batch[i].0
  }

  /** The verdict at a position, given the verdicts before it. */
  ghost function ByEarlier(ctx: Context, queue: seq<Pooled>, room: nat, batch: seq<Pooled>, v: seq<Verdict>, i: nat)
    : Verdict
    requires i < |batch| == |v|
  {
    if StoppedBefore(ctx, batch, i) then Refused(PreviousFragmentInvalid)
    else if Filter(ctx.log, batch[i], ctx.check).Some? then Refused(Filter(ctx.log, batch[i], ctx.check).value)
    else if CountAccepted(v[..i]) >= room then Refused(PoolOverflow)
    else if HasKey(queue, batch[i].0) || AcceptedEarlier(batch, v, i) then AlreadyPooled
    else Accepted
  }

  lemma {:induction false} JudgeByEarlier(ctx: Context, queue: seq<Pooled>, room: nat, batch: seq<Pooled>, i: nat)
    requires i < |batch|
    ensures var v := Judge(ctx, queue, room, batch, false);
            v[i] == ByEarlier(ctx, queue, room, batch, v, i)
    decreases i
  {
    hide Filter;
    var v := Judge(ctx, queue, room, batch, false);
    if i == 0 {
      assert v[..0] == [];
      return;
    }
    var p, rest := batch[0], batch[1..];
    assert v[..i][1..] == v[1..][..i - 1];
    if ctx.Stops(p) {
      assert StoppedBefore(ctx, batch, i);
      StoppedRefuses(ctx, queue, room, rest, i - 1);
      return;
    }
    ShiftStopped(ctx, batch, i);
    var admitted := Filter(ctx.log, p, ctx.check).None? && room > 0 && !HasKey(queue, p.0);
    if admitted {
      JudgeByEarlier(ctx, queue + [p], room - 1, rest, i - 1);
      assert HasKey(queue + [p], batch[i].0) <==> HasKey(queue, batch[i].0) || p.0 == batch[i].0 by {
        AppendKey(queue, p, batch[i].0);
      }
    } else {
      JudgeByEarlier(ctx, queue, room, rest, i - 1);
    }
    ShiftEarlier(batch, v, i);
  }

  /** The ids, not pooled before, of the fragments ahead of a position that are read and pass the filter. */
  ghost function Fresh(ctx: Context, queue: seq<Pooled>, batch: seq<Pooled>, i: nat): set<FragmentId>
    requires i <= |batch|
  {
    set j | 0 <= j < i && IsCandidate(ctx, queue, batch, j) :: batch[j].0
  }

  ghost predicate IsCandidate(ctx: Context, queue: seq<Pooled>, batch: seq<Pooled>, j: nat)
    requires j < |batch|
  {
    !StoppedBefore(ctx, batch, j) && Filter(ctx.log, batch[j], ctx.check).None? && !HasKey(queue, batch[j].0)
  }

  /** The verdict at a position, from the log, the pool and the batch alone. */
  ghost function Expected(ctx: Context, queue: seq<Pooled>, room: nat, batch: seq<Pooled>, i: nat): Verdict
    requires i < |batch|
  {
    var id, ahead := batch[i].0, Fresh(ctx, queue, batch, i);
    if StoppedBefore(ctx, batch, i) then Refused(PreviousFragmentInvalid)
    else if Filter(ctx.log, batch[i], ctx.check).Some? then Refused(Filter(ctx.log, batch[i], ctx.check).value)
    else if |ahead| >= room then Refused(PoolOverflow)
    else if HasKey(queue, id) || id in ahead then AlreadyPooled
    else Accepted
  }

  lemma FreshNext(ctx: Context, queue: seq<Pooled>, batch: seq<Pooled>, i: nat)
    requires i < |batch|
    ensures Fresh(ctx, queue, batch, i + 1) ==
            Fresh(ctx, queue, batch, i) + if IsCandidate(ctx, queue, batch, i) then {batch[i].0} else {}
  {
    hide IsCandidate;
  }

  lemma {:induction false} CountNext(v: seq<Verdict>, i: nat)
    requires i < |v|
    ensures CountAccepted(v[..i + 1]) == CountAccepted(v[..i]) + if v[i].Accepted? then 1 else 0
  {
    if i == 0 {
      assert v[..1] == [v[0]] && [v[0]][1..] == [];
    } else {
      CountNext(v[1..], i - 1);
      assert v[..i + 1][1..] == v[1..][..i] && v[..i][1..] == v[1..][..i - 1];
    }
  }

  /** While there is room the ids accepted so far are the fresh ones; after that it stays full. */
  ghost predicate Tally(batch: seq<Pooled>, v: seq<Verdict>, i: nat, ahead: set<FragmentId>, room: nat)
    requires i <= |batch| == |v|
  {
    && CountAccepted(v[..i]) == (if |ahead| < room then |ahead| else room)
    && (|ahead| < room ==>
          && (forall j :: 0 <= j < i && v[j].Accepted? ==> batch[j].0 in ahead)
          && (forall id :: id in ahead ==> AcceptedAt(batch, v, i, id)))
  }

  ghost predicate AcceptedAt(batch: seq<Pooled>, v: seq<Verdict>, i: nat, id: FragmentId)
    requires i <= |batch| == |v|
  {
    exists j :: 0 <= j < i && v[j].Accepted? && batch[j].0 == id
  }

  lemma TallyNext(batch: seq<Pooled>, v: seq<Verdict>, i: nat, ahead: set<FragmentId>, room: nat)
    requires i < |batch| == |v| && Tally(batch, v, i, ahead, room)
    ensures !v[i].Accepted? ==> Tally(batch, v, i + 1, ahead, room)
    ensures v[i].Accepted? && |ahead| < room && batch[i].0 !in ahead ==>
            Tally(batch, v, i + 1, ahead + {batch[i].0}, room)
    ensures !v[i].Accepted? && |ahead| >= room ==> Tally(batch, v, i + 1, ahead + {batch[i].0}, room)
    ensures |ahead| < room ==> (AcceptedEarlier(batch, v, i) <==> batch[i].0 in ahead)
  {
    hide CountAccepted;
    CountNext(v, i);
    forall id | AcceptedAt(batch, v, i, id)
      ensures AcceptedAt(batch, v, i + 1, id)
    {
      var j :| 0 <= j < i && v[j].Accepted? && batch[j].0 == id;
    }
    assert v[i].Accepted? ==> AcceptedAt(batch, v, i + 1, batch[i].0);
    assert AcceptedEarlier(batch, v, i) <==> AcceptedAt(batch, v, i, batch[i].0);
    assert batch[i].0 in ahead ==> ahead + {batch[i].0} == ahead;
  }

  lemma {:induction false} AcceptedAreFresh(ctx: Context, queue: seq<Pooled>, room: nat, batch: seq<Pooled>, i: nat)
    requires i <= |batch|
    ensures Tally(batch, Judge(ctx, queue, room, batch, false), i, Fresh(ctx, queue, batch, i), room)
  {
    hide Judge, Fresh, Tally;
    if i == 0 {
      TallyNone(ctx, queue, batch, Judge(ctx, queue, room, batch, false), room);
    } else {
      AcceptedAreFresh(ctx, queue, room, batch, i - 1);
      TallyStep(ctx, queue, room, batch, i - 1);
    }
  }

  lemma TallyNone(ctx: Context, queue: seq<Pooled>, batch: seq<Pooled>, v: seq<Verdict>, room: nat)
    requires |batch| == |v|
    ensures Tally(batch, v, 0, Fresh(ctx, queue, batch, 0), room)
  {
    hide Filter, StoppedBefore;
    assert v[..0] == [] && Fresh(ctx, queue, batch, 0) == {};
  }

  lemma TallyStep(ctx: Context, queue: seq<Pooled>, room: nat, batch: seq<Pooled>, i: nat)
    requires i < |batch| && Tally(batch, Judge(ctx, queue, room, batch, false), i, Fresh(ctx, queue, batch, i), room)
    ensures Tally(batch, Judge(ctx, queue, room, batch, false), i + 1, Fresh(ctx, queue, batch, i + 1), room)
  {
    hide Filter, Judge, StoppedBefore, Fresh, Tally, AcceptedEarlier, CountAccepted, HasKey;
    var v, ahead := Judge(ctx, queue, room, batch, false), Fresh(ctx, queue, batch, i);
    FreshNext(ctx, queue, batch, i);
    JudgeByEarlier(ctx, queue, room, batch, i);
    TallyCount(batch, v, i, ahead, room);
    TallyNext(batch, v, i, ahead, room);
    assert ahead + {} == ahead;
    assert batch[i].0 in ahead ==> ahead + {batch[i].0} == ahead;
  }

  lemma TallyCount(batch: seq<Pooled>, v: seq<Verdict>, i: nat, ahead: set<FragmentId>, room: nat)
    requires i <= |batch| == |v| && Tally(batch, v, i, ahead, room)
    ensures CountAccepted(v[..i]) >= room <==> |ahead| >= room
  {
  }

  /** Every verdict can be told before the call. */
  lemma JudgeIsExpected(ctx: Context, queue: seq<Pooled>, room: nat, batch: seq<Pooled>, i: nat)
    requires i < |batch|
    ensures Judge(ctx, queue, room, batch, false)[i] == Expected(ctx, queue, room, batch, i)
  {
    hide Filter, Judge, StoppedBefore, Fresh, AcceptedEarlier, CountAccepted;
    hide Tally;
    var v, ahead := Judge(ctx, queue, room, batch, false), Fresh(ctx, queue, batch, i);
    JudgeByEarlier(ctx, queue, room, batch, i);
    AcceptedAreFresh(ctx, queue, room, batch, i);
    TallyCount(batch, v, i, ahead, room);
    TallyNext(batch, v, i, ahead, room);
  }

  /** A fragment that stops a fail-fast batch: unlogged, not out of date, and never valid or not balanced. */
  predicate IsInvalid(ctx: Context, p: Pooled) {
    && !L.HasId(ctx.log, p.0)
    && (|| p.1.kind.Initial? || p.1.kind.OldUtxoDeclaration?
        || (p.1.kind.Transactional? && ctx.check(p.1.validUntil).DateOk? && !p.1.balanced))
  }

  ghost predicate IsStopped(ctx: Context, batch: seq<Pooled>, i: nat)
    requires i <= |batch|
  {
    ctx.failFast && exists j :: 0 <= j < i && IsInvalid(ctx, batch[j])
  }

  /** The ids, not pooled before, of the admissible fragments ahead of a position and of a fail-fast stop. */
  ghost function Newcomers(ctx: Context, queue: seq<Pooled>, batch: seq<Pooled>, i: nat): set<FragmentId>
    requires i <= |batch|
  {
    set j | 0 <= j < i && IsNewcomer(ctx, queue, batch, j) :: batch[j].0
  }

  ghost predicate IsNewcomer(ctx: Context, queue: seq<Pooled>, batch: seq<Pooled>, j: nat)
    requires j < |batch|
  {
    !IsStopped(ctx, batch, j) && IsAdmissible(ctx.log, batch[j], ctx.check) && !HasKey(queue, batch[j].0)
  }

  /** When a position gets a verdict, in terms of the log, the pool, the dates and the fragments. */
  ghost predicate IsVerdict(ctx: Context, queue: seq<Pooled>, room: nat, batch: seq<Pooled>, i: nat, v: Verdict)
    requires i < |batch|
  {
    var (id, f) := batch[i];
    var isNew, newcomers := !L.HasId(ctx.log, id), Newcomers(ctx, queue, batch, i);
    if IsStopped(ctx, batch, i) then v == Refused(PreviousFragmentInvalid)
    else
      match v
      case Refused(FragmentAlreadyInLog) => !isNew
      case Refused(FragmentExpired) => isNew && f.kind == Transactional && ctx.check(f.validUntil) == TransactionExpired
      case Refused(FragmentValidForTooLong) =>
        isNew && f.kind == Transactional && ctx.check(f.validUntil) == TransactionValidForTooLong
      case Refused(FragmentInvalid) => IsInvalid(ctx, batch[i])
      case Refused(PoolOverflow) => IsAdmissible(ctx.log, batch[i], ctx.check) && |newcomers| >= room
      case Refused(PreviousFragmentInvalid) => false
      case AlreadyPooled =>
        && IsAdmissible(ctx.log, batch[i], ctx.check) && |newcomers| < room
        && (HasKey(queue, id) || id in newcomers)
      case Accepted =>
        && IsAdmissible(ctx.log, batch[i], ctx.check) && |newcomers| < room
        && !HasKey(queue, id) && id !in newcomers
  }

  lemma StoppedIs(ctx: Context, batch: seq<Pooled>, i: nat)
    requires i <= |batch|
    ensures StoppedBefore(ctx, batch, i) <==> IsStopped(ctx, batch, i)
  {
    hide L.HasId;
    assert forall j :: 0 <= j < i ==> (ctx.Stops(batch[j]) <==> ctx.failFast && IsInvalid(ctx, batch[j]));
  }

  lemma FreshAreNewcomers(ctx: Context, queue: seq<Pooled>, batch: seq<Pooled>, i: nat)
    requires i <= |batch|
    ensures Fresh(ctx, queue, batch, i) == Newcomers(ctx, queue, batch, i)
  {
    forall j | 0 <= j < i
      ensures IsCandidate(ctx, queue, batch, j) <==> IsNewcomer(ctx, queue, batch, j)
    {
      hide Filter, StoppedBefore, IsStopped, IsAdmissible;
      StoppedIs(ctx, batch, j);
    }
    hide IsCandidate, IsNewcomer;
  }

  /** Each position has exactly this verdict. */
  lemma VerdictIs(ctx: Context, queue: seq<Pooled>, room: nat, batch: seq<Pooled>, i: nat, v: Verdict)
    requires i < |batch|
    ensures v == Judge(ctx, queue, room, batch, false)[i] <==> IsVerdict(ctx, queue, room, batch, i, v)
  {
    hide Judge, Fresh, Newcomers, StoppedBefore, IsStopped, L.HasId, HasKey;
    JudgeIsExpected(ctx, queue, room, batch, i);
    StoppedIs(ctx, batch, i);
    FreshAreNewcomers(ctx, queue, batch, i);
  }

  /** Nothing is accepted that is logged, out of date or invalid. */
  lemma {:induction false} AcceptedAreAdmissible(ctx: Context, queue: seq<Pooled>, room: nat, batch: seq<Pooled>,
                                                 stopped: bool)
    ensures forall p :: p in AcceptedOf(batch, Judge(ctx, queue, room, batch, stopped)) ==>
              IsAdmissible(ctx.log, p, ctx.check)
    decreases |batch|
  {
    hide Filter, IsAdmissible, HasKey;
    if batch != [] {
      var p, rest := batch[0], batch[1..];
      if stopped {
        AcceptedAreAdmissible(ctx, queue, room, rest, true);
      } else if Verdict1(ctx, queue, room, p).Accepted? {
        AcceptedAreAdmissible(ctx, queue + [p], room - 1, rest, false);
      } else {
        AcceptedAreAdmissible(ctx, queue, room, rest, ctx.Stops(p));
      }
    }
  }

  /** Positions are named in the summary once each, except those already pooled. */
  lemma {:induction false} NamedPositions(batch: seq<Pooled>, v: seq<Verdict>)
    requires |batch| == |v|
    ensures |AcceptedOf(batch, v)| + |RefusedOf(batch, v)| <= |batch|
    ensures |AcceptedOf(batch, v)| + |RefusedOf(batch, v)| == |batch| <==>
            forall i :: 0 <= i < |v| ==> v[i] != AlreadyPooled
  {
    if batch != [] {
      NamedPositions(batch[1..], v[1..]);
      assert v == [v[0]] + v[1..];
      assert (forall i :: 0 <= i < |v| ==> v[i] != AlreadyPooled) <==>
             v[0] != AlreadyPooled && forall i :: 0 <= i < |v[1..]| ==> v[1..][i] != AlreadyPooled by {
        assert forall i :: 0 < i < |v| ==> v[i] == v[1..][i - 1];
      }
    }
  }

  /** A position that is read, passes the filter, and finds its id pooled, or fresh earlier on, while there is room. */
  ghost predicate Vanishes(ctx: Context, queue: seq<Pooled>, room: nat, batch: seq<Pooled>, i: nat)
    requires i < |batch|
  {
    && !StoppedBefore(ctx, batch, i) && Filter(ctx.log, batch[i], ctx.check).None?
    && |Fresh(ctx, queue, batch, i)| < room
    && (HasKey(queue, batch[i].0) || batch[i].0 in Fresh(ctx, queue, batch, i))
  }

  /** The summary names every position if and only if none vanishes. */
  lemma SummaryIsComplete(ctx: Context, queue: seq<Pooled>, room: nat, batch: seq<Pooled>)
    ensures var v := Judge(ctx, queue, room, batch, false);
            |AcceptedOf(batch, v)| + |RefusedOf(batch, v)| == |batch| <==>
            forall i :: 0 <= i < |batch| ==> !Vanishes(ctx, queue, room, batch, i)
  {
    hide Filter, Judge, StoppedBefore, Fresh, AcceptedOf, RefusedOf;
    var v := Judge(ctx, queue, room, batch, false);
    forall i | 0 <= i < |batch|
      ensures v[i] == AlreadyPooled <==> Vanishes(ctx, queue, room, batch, i)
    {
      JudgeIsExpected(ctx, queue, room, batch, i);
    }
    NamedPositions(batch, v);
  }

  /** A pooled fragment that has left the log is submitted again: it is in neither list. */
  lemma ResubmittedVanishes(check: BlockDate -> DateCheck, failFast: bool)
    ensures var p := (7, Fragment(Evm, 0, BlockDate(0, 0), true, 0));
            var ctx := Context([], check, failFast);
            var v := Judge(ctx, [p], 1, [p], false);
            && v == [AlreadyPooled] && AcceptedOf([p], v) == [] && RefusedOf([p], v) == []
            && Vanishes(ctx, [p], 1, [p], 0)
  {
    var p: Pooled := (7, Fragment(Evm, 0, BlockDate(0, 0), true, 0));
    var ctx := Context([], check, failFast);
    assert [p][0].0 == 7 && HasKey([p], 7);
    assert Judge(ctx, [p], 1, [p], false) == [AlreadyPooled];
    assert Fresh(ctx, [p], [p], 0) == {};
  }

  lemma {:induction false} StoppedRefuses(ctx: Context, queue: seq<Pooled>, room: nat, batch: seq<Pooled>, i: nat)
    requires i < |batch|
    ensures Judge(ctx, queue, room, batch, true)[i] == Refused(PreviousFragmentInvalid)
  {
    if i > 0 {
      StoppedRefuses(ctx, queue, room, batch[1..], i - 1);
    }
  }

  lemma ShiftStopped(ctx: Context, batch: seq<Pooled>, i: nat)
    requires 0 < i <= |batch|
    ensures StoppedBefore(ctx, batch, i) <==> ctx.Stops(batch[0]) || StoppedBefore(ctx, batch[1..], i - 1)
  {
    if StoppedBefore(ctx, batch, i) && !ctx.Stops(batch[0]) {
      var j :| 0 <= j < i && ctx.Stops(batch[j]);
      assert batch[1..][j - 1] == batch[j];
    }
    if StoppedBefore(ctx, batch[1..], i - 1) {
      var j :| 0 <= j < i - 1 && ctx.Stops(batch[1..][j]);
      assert batch[j + 1] == batch[1..][j];
    }
  }

  lemma ShiftEarlier(batch: seq<Pooled>, v: seq<Verdict>, i: nat)
    requires 0 < i < |batch| == |v|
    ensures AcceptedEarlier(batch, v, i) <==>
            (v[0].Accepted? && batch[0].0 == batch[i].0) || AcceptedEarlier(batch[1..], v[1..], i - 1)
  {
    if AcceptedEarlier(batch, v, i) {
      var j :| 0 <= j < i && v[j].Accepted? && batch[j].0 == batch[i].0;
      assert j > 0 ==> v[1..][j - 1] == v[j] && batch[1..][j - 1] == batch[j];
    }
    if AcceptedEarlier(batch[1..], v[1..], i - 1) {
      var j :| 0 <= j < i - 1 && v[1..][j].Accepted? && batch[1..][j].0 == batch[1..][i - 1].0;
      assert v[j + 1] == v[1..][j] && batch[j + 1] == batch[1..][j];
    }
  }

  lemma AppendKey(queue: seq<Pooled>, p: Pooled, id: FragmentId)
    ensures HasKey(queue + [p], id) <==> HasKey(queue, id) || p.0 == id
  {
    if HasKey(queue, id) {
      var i :| 0 <= i < |queue| && queue[i].0 == id;
      assert (queue + [p])[i].0 == id;
    }
    assert (queue + [p])[|queue|] == p;
  }

  function IdsOf(ps: seq<Pooled>): (ids: seq<FragmentId>)
    ensures |ids| == |ps| && forall i :: 0 <= i < |ps| ==> ids[i] == ps[i].0
  {
    seq(|ps|, i requires 0 <= i < |ps| => ps[i].0)
  }

  function PendingLogs(ps: seq<Pooled>, origin: L.Origin): (logs: seq<L.FragmentLog>)
    ensures |logs| == |ps| && forall i :: 0 <= i < |ps| ==> logs[i] == L.FragmentLog(ps[i].0, origin, L.Pending)
  {
    seq(|ps|, i requires 0 <= i < |ps| => L.FragmentLog(ps[i].0, origin, L.Pending))
  }

  lemma FilterNothing(ctx: Context)
    ensures FilterAll(ctx, []) == ([], [], [])
  {
  }

  /** The filtering loop, one fragment at a time. */
  lemma FilterNext(ctx: Context, batch: seq<Pooled>, i: nat)
    requires i < |batch|
    ensures var here, next := FilterAll(ctx, batch[i..]), FilterAll(ctx, batch[i + 1..]);
            var f := Filter(ctx.log, batch[i], ctx.check);
            if ctx.Stops(batch[i]) then here == ([], [(batch[i].0, FragmentInvalid)], batch[i + 1..])
            else if f.Some? then here == (next.0, [(batch[i].0, f.value)] + next.1, next.2)
            else here == ([batch[i]] + next.0, next.1, next.2)
  {
    hide Filter;
    assert batch[i..][1..] == batch[i + 1..];
  }

  method FilterBatch(ctx: Context, batch: seq<Pooled>) returns (passing: seq<Pooled>, rejected: seq<Rejection>)
    ensures passing == FilterAll(ctx, batch).0
    ensures rejected == FilterAll(ctx, batch).1 + Tag(FilterAll(ctx, batch).2, PreviousFragmentInvalid)
  {
    hide Filter, FilterAll;
    passing, rejected := [], [];
    var i := 0;
    assert batch[0..] == batch;
    FilterNothing(ctx);
    while i < |batch|
      invariant 0 <= i <= |batch|
      invariant FilterAll(ctx, batch).0 == passing + FilterAll(ctx, batch[i..]).0
      invariant FilterAll(ctx, batch).1 == rejected + FilterAll(ctx, batch[i..]).1
      invariant FilterAll(ctx, batch).2 == FilterAll(ctx, batch[i..]).2
    {
      FilterNext(ctx, batch, i);
      var p := batch[i];
      match Filter(ctx.log, p, ctx.check) {
        case Some(FragmentInvalid) =>
          rejected := rejected + [(p.0, FragmentInvalid)];
          if ctx.failFast {
            assert passing + [] == passing;
            rejected := rejected + Tag(batch[i + 1..], PreviousFragmentInvalid);
            return;
          }
        case Some(reason) =>
          rejected := rejected + [(p.0, reason)];
        case None =>
          passing := passing + [p];
      }
      i := i + 1;
    }
    assert batch[|batch|..] == [] && passing + [] == passing && rejected + [] == rejected;
  }

  /** `sends(i)` says whether the i-th accepted fragment could be handed to the network task. */
  method InsertAndPropagateAll(origin: L.Origin, batch: seq<Pooled>, failFast: bool, check: BlockDate -> DateCheck,
                               sends: nat -> bool, logs: L.Logs, pool: Pool)
    returns (r: Option<Summary>)
    requires pool.Valid() && logs.Valid()
    modifies pool, pool.entries, pool.entries.repr, logs
    ensures pool.Valid() && logs.Valid()
    ensures var v := Judge(Context(old(logs.entries), check, failFast), old(pool.Queue()),
                           pool.maxEntries - |old(pool.Queue())|, batch, false);
            var accepted := AcceptedOf(batch, v);
            && pool.Queue() == old(pool.Queue()) + accepted
            && (forall p :: p in accepted ==> IsAdmissible(old(logs.entries), p, check))
            && logs.entries == L.InsertAll(old(logs.entries), PendingLogs(accepted, origin), logs.capacity)
            && (r.Some? <==> forall i :: 0 <= i < |accepted| ==> sends(i))
            && (r.Some? ==>
                  && r.value.accepted == IdsOf(accepted)
                  && multiset(r.value.rejected) == multiset(RefusedOf(batch, v))
                  && r.value.rejected == Rejections(Context(old(logs.entries), check, failFast), old(pool.Queue()),
                                                    pool.maxEntries - |old(pool.Queue())|, batch))
    ensures fresh(pool.entries.repr - old(pool.entries.repr))
  {
    hide Linked, Indexed, Views, L.WellFormed, Judge, FilterAll, Admit, AcceptedOf, RefusedOf, L.InsertAll;
    hide IsAdmissible;
    var ctx := Context(logs.entries, check, failFast);
    ghost var room := pool.maxEntries - |pool.Queue()|;
    AcceptedAreAdmissible(ctx, pool.Queue(), room, batch, false);
    PhasesAccept(ctx, pool.Queue(), room, batch);
    PhasesRefuse(ctx, pool.Queue(), room, batch);
    var passing, rejected := FilterBatch(ctx, batch);
    var inserted, unread := pool.InsertAll(passing);
    logs.InsertAllPending(PendingLogs(inserted, origin));
    var accepted: seq<FragmentId> := [];
    for i := 0 to |inserted|
      invariant accepted == IdsOf(inserted[..i])
      invariant forall j :: 0 <= j < i ==> sends(j)
    {
      accepted := accepted + [inserted[i].0];
      if !sends(i) {
        return None;
      }
    }
    assert inserted[..|inserted|] == inserted;
    r := Some(Summary(accepted, rejected + Tag(unread, PoolOverflow)));
  }
}
