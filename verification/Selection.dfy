/** Oldest-first selection of block contents from the mempool. */
module Selection {
  import opened Base
  import opened IndexedDeque
  import opened Pool
  import L = Logs

  datatype Applied<Ledger> = Applied(ledger: Ledger) | Failed(reason: string)

  /** The ledger rules, and the content size limit in the ledger's settings. */
  datatype Rules<!Ledger> = Rules(apply: (Ledger, Fragment) -> Applied<Ledger>, contentMax: Ledger -> nat)

  /** When applying one fragment finishes: before the soft deadline, between the two, or after both. */
  datatype Race = InTime | AfterSoft | AfterHard

  datatype Attempt<Ledger> =
    | Committed(ledger: Ledger, spaceLeft: nat)
    | DoesNotFit
    | SoftDeadlineReached
    | Refused(reason: string)

  const TOO_LARGE := "fragment exceeds maximum block content size"
  const TOO_SLOW := "cannot process a single fragment within the given time bounds (hard deadline)"

  function TryApply<Ledger>(f: Fragment, ledger: Ledger, rules: Rules<Ledger>, race: Race, spaceLeft: nat)
    : (r: Attempt<Ledger>)
    ensures r.Committed? ==> r.spaceLeft == spaceLeft - f.size && rules.apply(ledger, f) == Applied(r.ledger)
  {
    var max := rules.contentMax(ledger);
    if f.size > U32_MAX || f.size > max then Refused(TOO_LARGE)
    else if f.size > spaceLeft then DoesNotFit
    else if race != InTime && spaceLeft - f.size < max then SoftDeadlineReached
    else if race == AfterHard then Refused(TOO_SLOW)
    else
      match rules.apply(ledger, f)
      case Applied(ledger') => Committed(ledger', spaceLeft - f.size)
      case Failed(reason) => Refused(reason)
  }

  /** The size is taken off before the deadline test, so work past the soft deadline is always
      abandoned unless the block is empty and so is the fragment. */
  lemma SoftDeadlineAborts<Ledger>(f: Fragment, ledger: Ledger, rules: Rules<Ledger>, race: Race, spaceLeft: nat)
    requires f.size <= spaceLeft <= rules.contentMax(ledger) <= U32_MAX && race != InTime
    ensures TryApply(f, ledger, rules, race, spaceLeft) == SoftDeadlineReached <==>
            f.size > 0 || spaceLeft < rules.contentMax(ledger)
  {
  }

  datatype Fate = Chosen | Dropped(reason: string) | Kept

  function FateOf<Ledger>(a: Attempt<Ledger>): Fate {
    match a
    case Committed(_, _) => Chosen
    case Refused(reason) => Dropped(reason)
    case _ => Kept
  }

  /** Larger than any block of this ledger may be. */
  predicate IsTooLarge<Ledger>(f: Fragment, ledger: Ledger, rules: Rules<Ledger>) {
    f.size > rules.contentMax(ledger) || f.size >= 0x1_0000_0000
  }

  /** A deadline passed before the ledger was done: the soft one counts unless the block stays empty, the hard
      one always. */
  predicate IsStopped<Ledger>(f: Fragment, ledger: Ledger, rules: Rules<Ledger>, race: Race, left: nat) {
    (race != InTime && left < f.size + rules.contentMax(ledger)) || race == AfterHard
  }

  /** What becomes of a fragment that meets a ledger, the space left in the block, and a race with the deadlines. */
  ghost predicate IsFate<Ledger>(f: Fragment, ledger: Ledger, rules: Rules<Ledger>, race: Race, left: nat, fate: Fate) {
    match fate
    case Kept =>
      && !IsTooLarge(f, ledger, rules)
      && (f.size > left || (race != InTime && left < f.size + rules.contentMax(ledger)))
    case Chosen =>
      && !IsTooLarge(f, ledger, rules) && f.size <= left && !IsStopped(f, ledger, rules, race, left)
      && rules.apply(ledger, f).Applied?
    case Dropped(reason) =>
      || (IsTooLarge(f, ledger, rules) && reason == TOO_LARGE)
      || (&& !IsTooLarge(f, ledger, rules) && f.size <= left
          && race == AfterHard && left >= f.size + rules.contentMax(ledger) && reason == TOO_SLOW)
      || (&& !IsTooLarge(f, ledger, rules) && f.size <= left && !IsStopped(f, ledger, rules, race, left)
          && rules.apply(ledger, f) == Failed(reason))
  }

  /** An attempt gives the fragment its fate, which is the only one. */
  lemma AttemptGivesFate<Ledger>(f: Fragment, ledger: Ledger, rules: Rules<Ledger>, race: Race, left: nat, fate: Fate)
    ensures fate == FateOf(TryApply(f, ledger, rules, race, left)) <==> IsFate(f, ledger, rules, race, left, fate)
  {
  }

  function After<Ledger>(a: Attempt<Ledger>, ledger: Ledger, space: nat): (Ledger, nat) {
    if a.Committed? then (a.ledger, a.spaceLeft) else (ledger, space)
  }

  function AllKept(n: nat): (r: seq<Fate>)
    ensures |r| == n && forall i :: 0 <= i < n ==> r[i] == Kept
  {
    seq(n, _ => Kept)
  }

  /** What becomes of each queued fragment, oldest first; the n-th attempt meets race `races(n)`. */
  function Decide<Ledger>(queue: seq<Pooled>, ledger: Ledger, space: nat, rules: Rules<Ledger>, races: nat -> Race,
                          n: nat)
    : (fates: seq<Fate>)
    ensures |fates| == |queue|
    decreases |queue|
  {
    if queue == [] then []
    else
      var a := TryApply(queue[0].1, ledger, rules, races(n), space);
      var (ledger', space') := After(a, ledger, space);
      [FateOf(a)] +
      if space' == 0 then AllKept(|queue| - 1) else Decide(queue[1..], ledger', space', rules, races, n + 1)
  }

  /** The fragments with a wanted fate, in queue order. */
  function Pick(queue: seq<Pooled>, fates: seq<Fate>, wanted: Fate -> bool): (r: seq<Pooled>)
    requires |queue| == |fates|
  {
    if queue == [] then []
    else (if wanted(fates[0]) then [queue[0]] else []) + Pick(queue[1..], fates[1..], wanted)
  }

  predicate IsChosen(f: Fate) { f.Chosen? }
  predicate IsDropped(f: Fate) { f.Dropped? }
  predicate IsKept(f: Fate) { f.Kept? }

  function ApplyAll<Ledger>(ledger: Ledger, contents: seq<Pooled>, rules: Rules<Ledger>): Option<Ledger> {
    if contents == [] then Some(ledger)
    else
      match rules.apply(ledger, contents[0].1)
      case Applied(ledger') => ApplyAll(ledger', contents[1..], rules)
      case Failed(_) => None
  }

  /** Each fragment is in exactly one of the three outcomes. */
  lemma {:induction false} PickPartitions(queue: seq<Pooled>, fates: seq<Fate>)
    requires |queue| == |fates|
    ensures multiset(queue) ==
            multiset(Pick(queue, fates, IsChosen)) + multiset(Pick(queue, fates, IsDropped)) +
            multiset(Pick(queue, fates, IsKept))
  {
    if queue != [] {
      assert queue == [queue[0]] + queue[1..];
      PickPartitions(queue[1..], fates[1..]);
    }
  }

  lemma {:induction false} PickFacts(queue: seq<Pooled>, fates: seq<Fate>, wanted: Fate -> bool)
    requires |queue| == |fates|
    ensures |Pick(queue, fates, wanted)| <= |queue|
    ensures forall p :: p in Pick(queue, fates, wanted) ==> p in queue
    ensures DistinctKeys(queue) ==> DistinctKeys(Pick(queue, fates, wanted))
  {
    if queue != [] {
      PickFacts(queue[1..], fates[1..], wanted);
      var tail := Pick(queue[1..], fates[1..], wanted);
      assert forall i :: 0 <= i < |tail| ==> tail[i] in tail;
    }
  }

  lemma {:induction false} PickAppend(queue: seq<Pooled>, fates: seq<Fate>, p: Pooled, f: Fate, wanted: Fate -> bool)
    requires |queue| == |fates|
    ensures Pick(queue + [p], fates + [f], wanted) == Pick(queue, fates, wanted) + if wanted(f) then [p] else []
  {
    if queue != [] {
      assert (queue + [p])[1..] == queue[1..] + [p] && (fates + [f])[1..] == fates[1..] + [f];
      PickAppend(queue[1..], fates[1..], p, f, wanted);
    }
  }

  lemma {:induction false} PickSplit(queue: seq<Pooled>, fates: seq<Fate>, k: nat, wanted: Fate -> bool)
    requires |queue| == |fates| && k <= |queue|
    ensures Pick(queue, fates, wanted) == Pick(queue[..k], fates[..k], wanted) + Pick(queue[k..], fates[k..], wanted)
  {
    if k > 0 {
      assert queue[..k][1..] == queue[1..][..k - 1] && fates[..k][1..] == fates[1..][..k - 1];
      assert queue[1..][k - 1..] == queue[k..] && fates[1..][k - 1..] == fates[k..];
      PickSplit(queue[1..], fates[1..], k - 1, wanted);
    }
  }

  /** The ledger and the space a fragment meets are those left by the contents chosen before it. */
  ghost predicate Justified<Ledger>(queue: seq<Pooled>, fates: seq<Fate>, ledger: Ledger, space: nat,
                                    rules: Rules<Ledger>, races: nat -> Race, n: nat, i: nat)
    requires |queue| == |fates| && i < |queue|
  {
    var before := Pick(queue[..i], fates[..i], IsChosen);
    && ApplyAll(ledger, before, rules).Some?
    && TotalSize(before) <= space
    && fates[i] == (if i > 0 && TotalSize(before) == space then Kept
                    else FateOf(TryApply(queue[i].1, ApplyAll(ledger, before, rules).value, rules, races(n + i),
                                         space - TotalSize(before))))
  }

  /** Putting a committed fragment in front of contents that apply after it. */
  lemma CommitFirst<Ledger>(p: Pooled, tail: seq<Pooled>, ledger: Ledger, space: nat, rules: Rules<Ledger>, race: Race)
    requires TryApply(p.1, ledger, rules, race, space).Committed?
    ensures var a := TryApply(p.1, ledger, rules, race, space);
            && ApplyAll(ledger, [p] + tail, rules) == ApplyAll(a.ledger, tail, rules)
            && space - TotalSize([p] + tail) == a.spaceLeft - TotalSize(tail)
  {
    assert ([p] + tail)[1..] == tail;
  }

  lemma {:induction false} DecideJustified<Ledger>(queue: seq<Pooled>, ledger: Ledger, space: nat,
                                                   rules: Rules<Ledger>, races: nat -> Race, n: nat, i: nat)
    requires i < |queue|
    ensures Justified(queue, Decide(queue, ledger, space, rules, races, n), ledger, space, rules, races, n, i)
    decreases i
  {
    hide TryApply;
    if i > 0 {
      var a := TryApply(queue[0].1, ledger, rules, races(n), space);
      var (ledger', space') := After(a, ledger, space);
      if space' == 0 {
        FullIsJustified(queue, ledger, space, rules, races, n, i);
      } else {
        DecideJustified(queue[1..], ledger', space', rules, races, n + 1, i - 1);
        ShiftJustified(queue, ledger, space, rules, races, n, i);
      }
    }
  }

  /** The fate of each fragment of a queue, from sizes, space, races and the ledger rules alone: it is kept if the
      contents chosen before it fill the block, and otherwise meets the ledger and the space they leave. */
  lemma FatesAreRight<Ledger>(queue: seq<Pooled>, ledger: Ledger, space: nat, rules: Rules<Ledger>,
                              races: nat -> Race, n: nat, i: nat)
    requires i < |queue|
    ensures var fates := Decide(queue, ledger, space, rules, races, n);
            var before := Pick(queue[..i], fates[..i], IsChosen);
            var met := ApplyAll(ledger, before, rules);
            && met.Some? && TotalSize(before) <= space
            && if i > 0 && TotalSize(before) == space then fates[i] == Kept
               else IsFate(queue[i].1, met.value, rules, races(n + i), space - TotalSize(before), fates[i])
  {
    hide TryApply, Decide, Pick, ApplyAll, TotalSize, IsFate;
    DecideJustified(queue, ledger, space, rules, races, n, i);
    var fates := Decide(queue, ledger, space, rules, races, n);
    var before := Pick(queue[..i], fates[..i], IsChosen);
    if i == 0 || TotalSize(before) != space {
      AttemptGivesFate(queue[i].1, ApplyAll(ledger, before, rules).value, rules, races(n + i),
                       space - TotalSize(before), fates[i]);
    }
  }

  /** The contents chosen among the first `i` fragments, split at the first one. */
  lemma ChosenBefore<Ledger>(queue: seq<Pooled>, fates: seq<Fate>, a: Attempt<Ledger>, i: nat)
    requires 0 < i <= |queue| == |fates| && fates[0] == FateOf(a)
    ensures Pick(queue[..i], fates[..i], IsChosen) ==
            (if a.Committed? then [queue[0]] else []) + Pick(queue[1..][..i - 1], fates[1..][..i - 1], IsChosen)
  {
    assert queue[..i][1..] == queue[1..][..i - 1] && fates[..i][1..] == fates[1..][..i - 1];
  }

  lemma FullIsJustified<Ledger>(queue: seq<Pooled>, ledger: Ledger, space: nat, rules: Rules<Ledger>,
                                races: nat -> Race, n: nat, i: nat)
    requires 0 < i < |queue| && After(TryApply(queue[0].1, ledger, rules, races(n), space), ledger, space).1 == 0
    ensures Justified(queue, Decide(queue, ledger, space, rules, races, n), ledger, space, rules, races, n, i)
  {
    hide TryApply;
    var fates := Decide(queue, ledger, space, rules, races, n);
    var a := TryApply(queue[0].1, ledger, rules, races(n), space);
    ChosenBefore(queue, fates, a, i);
    PickNone(queue[1..][..i - 1], fates[1..][..i - 1], IsChosen);
    if a.Committed? {
      CommitFirst(queue[0], [], ledger, space, rules, races(n));
    }
  }

  lemma ShiftJustified<Ledger>(queue: seq<Pooled>, ledger: Ledger, space: nat, rules: Rules<Ledger>,
                               races: nat -> Race, n: nat, i: nat)
    requires 0 < i < |queue|
    requires var (ledger', space') := After(TryApply(queue[0].1, ledger, rules, races(n), space), ledger, space);
             space' != 0 && Justified(queue[1..], Decide(queue[1..], ledger', space', rules, races, n + 1), ledger',
                                      space', rules, races, n + 1, i - 1)
    ensures Justified(queue, Decide(queue, ledger, space, rules, races, n), ledger, space, rules, races, n, i)
  {
    hide TryApply, Pick, ApplyAll, TotalSize;
    var fates := Decide(queue, ledger, space, rules, races, n);
    var a := TryApply(queue[0].1, ledger, rules, races(n), space);
    var (ledger', space') := After(a, ledger, space);
    assert fates[1..] == Decide(queue[1..], ledger', space', rules, races, n + 1);
    var tail := Pick(queue[1..][..i - 1], fates[1..][..i - 1], IsChosen);
    ChosenBefore(queue, fates, a, i);
    if a.Committed? {
      CommitFirst(queue[0], tail, ledger, space, rules, races(n));
    } else {
      assert [] + tail == tail;
    }
    assert queue[1..][..0] == [] && fates[1..][..0] == [];
    NothingChosen();
  }

  lemma NothingChosen()
    ensures Pick([], [], IsChosen) == [] && TotalSize([]) == 0
  {
  }

  lemma {:induction false} PickNone(queue: seq<Pooled>, fates: seq<Fate>, wanted: Fate -> bool)
    requires |queue| == |fates| && forall i :: 0 <= i < |fates| ==> !wanted(fates[i])
    ensures Pick(queue, fates, wanted) == []
  {
    if queue != [] {
      PickNone(queue[1..], fates[1..], wanted);
    }
  }

  lemma {:induction false} PickEverything(queue: seq<Pooled>, fates: seq<Fate>, wanted: Fate -> bool)
    requires |queue| == |fates| && forall i :: 0 <= i < |fates| ==> wanted(fates[i])
    ensures Pick(queue, fates, wanted) == queue
  {
    if queue != [] {
      PickEverything(queue[1..], fates[1..], wanted);
    }
  }

  /** The contents fit the block, apply in order, and give the ledger handed back. */
  lemma {:induction false} DecideLedger<Ledger>(queue: seq<Pooled>, ledger: Ledger, space: nat, rules: Rules<Ledger>,
                                                races: nat -> Race, n: nat)
    ensures var contents := Pick(queue, Decide(queue, ledger, space, rules, races, n), IsChosen);
            ApplyAll(ledger, contents, rules).Some? && TotalSize(contents) <= space
    decreases |queue|
  {
    hide TryApply;
    if queue != [] {
      var fates := Decide(queue, ledger, space, rules, races, n);
      var a := TryApply(queue[0].1, ledger, rules, races(n), space);
      var (ledger', space') := After(a, ledger, space);
      var tail := Pick(queue[1..], fates[1..], IsChosen);
      if a.Committed? {
        CommitFirst(queue[0], tail, ledger, space, rules, races(n));
      } else {
        assert [] + tail == tail;
      }
      if space' == 0 {
        PickNone(queue[1..], fates[1..], IsChosen);
      } else {
        assert fates[1..] == Decide(queue[1..], ledger', space', rules, races, n + 1);
        DecideLedger(queue[1..], ledger', space', rules, races, n + 1);
      }
    }
  }

  /** The log after marking the dropped fragments rejected, oldest first. */
  ghost function LogRejections(entries: seq<L.Entry>, queue: seq<Pooled>, fates: seq<Fate>, date: BlockDate,
                               capacity: nat)
    : seq<L.Entry>
    requires |queue| == |fates|
  {
    if queue == [] then entries
    else LogFate(LogRejections(entries, queue[..|queue| - 1], fates[..|queue| - 1], date, capacity),
                 queue[|queue| - 1], fates[|queue| - 1], date, capacity)
  }

  ghost function LogFate(entries: seq<L.Entry>, p: Pooled, f: Fate, date: BlockDate, capacity: nat): seq<L.Entry> {
    if f.Dropped? then L.Modify(entries, p.0, L.Rejected(f.reason), date, capacity) else entries
  }

  lemma {:induction false} ApplyOneMore<Ledger>(ledger: Ledger, contents: seq<Pooled>, p: Pooled, rules: Rules<Ledger>)
    requires ApplyAll(ledger, contents, rules).Some?
    ensures ApplyAll(ledger, contents + [p], rules) ==
            match rules.apply(ApplyAll(ledger, contents, rules).value, p.1)
            case Applied(l) => Some(l)
            case Failed(_) => None
  {
    if contents == [] {
      assert (contents + [p])[1..] == [];
    } else {
      assert (contents + [p])[1..] == contents[1..] + [p];
      ApplyOneMore(rules.apply(ledger, contents[0].1).ledger, contents[1..], p, rules);
    }
  }

  /** What the loop has done with the first `n` fragments. */
  ghost predicate Progress(queue: seq<Pooled>, fates: seq<Fate>, n: nat, contents: seq<Pooled>, returned: seq<Pooled>,
                           rejected: nat)
    requires |queue| == |fates|
  {
    && n <= |queue|
    && contents == Pick(queue[..n], fates[..n], IsChosen)
    && returned == Pick(queue[..n], fates[..n], IsKept)
    && rejected == |Pick(queue[..n], fates[..n], IsDropped)|
  }

  lemma Advance(queue: seq<Pooled>, fates: seq<Fate>, n: nat, contents: seq<Pooled>, returned: seq<Pooled>,
                rejected: nat)
    requires |queue| == |fates| && n < |queue| && Progress(queue, fates, n, contents, returned, rejected)
    ensures Progress(queue, fates, n + 1, if fates[n].Chosen? then contents + [queue[n]] else contents,
                     if fates[n].Kept? then returned + [queue[n]] else returned,
                     if fates[n].Dropped? then rejected + 1 else rejected)
  {
    assert queue[..n + 1] == queue[..n] + [queue[n]] && fates[..n + 1] == fates[..n] + [fates[n]];
    PickAppend(queue[..n], fates[..n], queue[n], fates[n], IsChosen);
    PickAppend(queue[..n], fates[..n], queue[n], fates[n], IsKept);
    PickAppend(queue[..n], fates[..n], queue[n], fates[n], IsDropped);
  }

  lemma Start<Ledger>(queue: seq<Pooled>, fates: seq<Fate>, ledger: Ledger, rules: Rules<Ledger>)
    requires |queue| == |fates|
    ensures Progress(queue, fates, 0, [], [], 0) && queue[0..] == queue && fates[0..] == fates
    ensures ApplyAll(ledger, [], rules) == Some(ledger)
  {
  }

  lemma {:induction false} KeptAreNotLogged(entries: seq<L.Entry>, queue: seq<Pooled>, fates: seq<Fate>, n: nat,
                                            date: BlockDate, capacity: nat)
    requires |queue| == |fates| && n <= |queue| && forall i :: n <= i < |queue| ==> fates[i] == Kept
    ensures LogRejections(entries, queue, fates, date, capacity) ==
            LogRejections(entries, queue[..n], fates[..n], date, capacity)
  {
    if n == |queue| {
      assert queue[..n] == queue && fates[..n] == fates;
    } else {
      var m := |queue| - 1;
      KeptAreNotLogged(entries, queue[..m], fates[..m], n, date, capacity);
      assert queue[..m][..n] == queue[..n] && fates[..m][..n] == fates[..n];
    }
  }

  /** Once every later fragment is kept, the loop's results are those for the whole queue. */
  lemma Finish(queue: seq<Pooled>, fates: seq<Fate>, n: nat, contents: seq<Pooled>, returned: seq<Pooled>,
               rejected: nat)
    requires |queue| == |fates| && Progress(queue, fates, n, contents, returned, rejected)
    requires forall i :: n <= i < |queue| ==> fates[i] == Kept
    ensures contents == Pick(queue, fates, IsChosen)
    ensures returned + queue[n..] == Pick(queue, fates, IsKept)
    ensures rejected == |Pick(queue, fates, IsDropped)|
  {
    PickSplit(queue, fates, n, IsChosen);
    PickSplit(queue, fates, n, IsKept);
    PickSplit(queue, fates, n, IsDropped);
    PickNone(queue[n..], fates[n..], IsChosen);
    PickEverything(queue[n..], fates[n..], IsKept);
    PickNone(queue[n..], fates[n..], IsDropped);
  }

  /** One decision, as the loop meets it. */
  lemma DecideNext<Ledger>(queue: seq<Pooled>, fates: seq<Fate>, ledger: Ledger, space: nat, rules: Rules<Ledger>,
                           races: nat -> Race, n: nat)
    requires |queue| == |fates| && n < |queue|
    requires fates[n..] == Decide(queue[n..], ledger, space, rules, races, n)
    ensures var a := TryApply(queue[n].1, ledger, rules, races(n), space);
            var (ledger', space') := After(a, ledger, space);
            && fates[n] == FateOf(a)
            && (space' == 0 ==> forall i :: n + 1 <= i < |queue| ==> fates[i] == Kept)
            && (space' != 0 ==> fates[n + 1..] == Decide(queue[n + 1..], ledger', space', rules, races, n + 1))
  {
    hide TryApply;
    assert fates[n..][0] == fates[n] && fates[n..][1..] == fates[n + 1..] && queue[n..][1..] == queue[n + 1..];
    forall i | n + 1 <= i < |queue|
      ensures fates[i] == fates[n..][1..][i - n - 1]
    {
    }
  }

  lemma ReturnedAreAbsent(queue: seq<Pooled>, fates: seq<Fate>, n: nat, contents: seq<Pooled>, returned: seq<Pooled>,
                          rejected: nat)
    requires |queue| == |fates| && Progress(queue, fates, n, contents, returned, rejected) && DistinctKeys(queue)
    ensures var back := Reversed(returned);
            DistinctKeys(back) && |back| <= n && forall p :: p in back ==> !HasKey(queue[n..], p.0)
  {
    PickFacts(queue[..n], fates[..n], IsKept);
    forall p | p in Reversed(returned)
      ensures !HasKey(queue[n..], p.0)
    {
      assert p in returned && p in queue[..n];
    }
  }

  /** Pushing the leftovers back in reverse restores their order in front of the untouched ones. */
  method PutBack(pool: Pool, returned: seq<Pooled>, ghost queue: seq<Pooled>, ghost fates: seq<Fate>, ghost n: nat,
                 ghost contents: seq<Pooled>, ghost rejected: nat)
    requires |queue| == |fates| && Progress(queue, fates, n, contents, returned, rejected)
    requires pool.Valid() && pool.Queue() == queue[n..] && DistinctKeys(queue) && |queue| <= pool.maxEntries
    modifies pool, pool.entries, pool.entries.repr
    ensures pool.Valid() && pool.Queue() == returned + old(pool.Queue())
    ensures fresh(pool.entries.repr - old(pool.entries.repr))
  {
    ReturnedAreAbsent(queue, fates, n, contents, returned, rejected);
    assert n <= |queue|;
    hide Linked, Indexed, Views, DistinctKeys, HasKey, Progress;
    var back := Reversed(returned);
    assert Reversed(back) == returned;
    pool.ReturnToPool(back);
  }

  /** What the loop holds after `n` fragments, and the ledger that contents have led to. */
  ghost predicate Drained<Ledger>(queue: seq<Pooled>, fates: seq<Fate>, n: nat, contents: seq<Pooled>,
                                  returned: seq<Pooled>, rejected: nat, start: Ledger, ledger: Ledger,
                                  rules: Rules<Ledger>)
    requires |queue| == |fates|
  {
    Progress(queue, fates, n, contents, returned, rejected) && ApplyAll(start, contents, rules) == Some(ledger)
  }

  /** The fragments not yet drained are still to be decided with the ledger and the space left. */
  ghost predicate Undecided<Ledger>(queue: seq<Pooled>, fates: seq<Fate>, n: nat, ledger: Ledger, space: nat,
                                    rules: Rules<Ledger>, races: nat -> Race)
    requires |queue| == |fates|
  {
    n <= |queue| && fates[n..] == Decide(queue[n..], ledger, space, rules, races, n)
  }

  ghost predicate RestKept(fates: seq<Fate>, n: nat) {
    forall i :: n <= i < |fates| ==> fates[i] == Kept
  }

  /** One turn of the loop. */
  lemma DrainOne<Ledger>(queue: seq<Pooled>, fates: seq<Fate>, n: nat, contents: seq<Pooled>, returned: seq<Pooled>,
                         rejected: nat, start: Ledger, ledger: Ledger, space: nat, rules: Rules<Ledger>,
                         races: nat -> Race)
    requires |queue| == |fates| && n < |queue|
    requires Drained(queue, fates, n, contents, returned, rejected, start, ledger, rules)
    requires Undecided(queue, fates, n, ledger, space, rules, races)
    ensures var p, a := queue[n], TryApply(queue[n].1, ledger, rules, races(n), space);
            var (ledger', space') := After(a, ledger, space);
            && fates[n] == FateOf(a)
            && Drained(queue, fates, n + 1, if a.Committed? then contents + [p] else contents,
                       if FateOf(a).Kept? then returned + [p] else returned,
                       if a.Refused? then rejected + 1 else rejected, start, ledger', rules)
            && (if space' == 0 then RestKept(fates, n + 1)
                else Undecided(queue, fates, n + 1, ledger', space', rules, races))
  {
    hide TryApply, Decide, Pick, ApplyAll, Progress;
    DecideNext(queue, fates, ledger, space, rules, races, n);
    Advance(queue, fates, n, contents, returned, rejected);
    ApplyOneMore(start, contents, queue[n], rules);
  }

  lemma LogOne(entries: seq<L.Entry>, queue: seq<Pooled>, fates: seq<Fate>, n: nat, date: BlockDate, capacity: nat)
    requires |queue| == |fates| && n < |queue|
    ensures LogRejections(entries, queue[..n + 1], fates[..n + 1], date, capacity) ==
            LogFate(LogRejections(entries, queue[..n], fates[..n], date, capacity), queue[n], fates[n], date, capacity)
  {
    assert queue[..n + 1][..n] == queue[..n] && fates[..n + 1][..n] == fates[..n];
  }

  lemma DrainNothing<Ledger>(queue: seq<Pooled>, ledger: Ledger, space: nat, rules: Rules<Ledger>, races: nat -> Race)
    ensures var fates := Decide(queue, ledger, space, rules, races, 0);
            && Drained(queue, fates, 0, [], [], 0, ledger, ledger, rules)
            && Undecided(queue, fates, 0, ledger, space, rules, races)
            && queue[0..] == queue
  {
    Start(queue, Decide(queue, ledger, space, rules, races, 0), ledger, rules);
  }

  /** Once the pool or the block is used up, the loop's results are those for the whole queue. */
  lemma DrainAll<Ledger>(queue: seq<Pooled>, fates: seq<Fate>, n: nat, contents: seq<Pooled>, returned: seq<Pooled>,
                         rejected: nat, start: Ledger, ledger: Ledger, rules: Rules<Ledger>)
    requires |queue| == |fates| && RestKept(fates, n)
    requires Drained(queue, fates, n, contents, returned, rejected, start, ledger, rules)
    ensures n <= |queue| && Progress(queue, fates, n, contents, returned, rejected)
    ensures contents == Pick(queue, fates, IsChosen) && returned + queue[n..] == Pick(queue, fates, IsKept)
    ensures rejected == |Pick(queue, fates, IsDropped)| && ApplyAll(start, contents, rules) == Some(ledger)
  {
    hide Pick, ApplyAll;
    Finish(queue, fates, n, contents, returned, rejected);
  }

  /** Drains the pool oldest first until the block is full, then puts the leftovers back. */
  method Select<Ledger>(ledger: Ledger, rules: Rules<Ledger>, races: nat -> Race, date: BlockDate, logs: L.Logs,
                        pool: Pool)
    returns (contents: seq<Pooled>, ledger': Ledger, rejected: nat)
    requires pool.Valid() && logs.Valid()
    modifies pool, pool.entries, pool.entries.repr, logs
    ensures pool.Valid() && logs.Valid()
    ensures var queue := old(pool.Queue());
            var fates := Decide(queue, ledger, rules.contentMax(ledger), rules, races, 0);
            && contents == Pick(queue, fates, IsChosen)
            && pool.Queue() == Pick(queue, fates, IsKept)
            && rejected == |Pick(queue, fates, IsDropped)|
            && logs.entries == LogRejections(old(logs.entries), queue, fates, date, logs.capacity)
    ensures ApplyAll(ledger, contents, rules) == Some(ledger')
    ensures TotalSize(contents) <= rules.contentMax(ledger)
    ensures fresh(pool.entries.repr - old(pool.entries.repr))
  {
    hide Linked, Indexed, Views, DistinctKeys, HasKey, TryApply, Decide, Pick, Progress, ApplyAll, TotalSize;
    hide Drained, Undecided, RestKept, LogRejections, L.WellFormed, L.Modify;
    ghost var queue := pool.Queue();
    ghost var fates := Decide(queue, ledger, rules.contentMax(ledger), rules, races, 0);
    var spaceLeft := rules.contentMax(ledger);
    var returnToPool: seq<Pooled> := [];
    var n := 0;
    contents, ledger', rejected := [], ledger, 0;
    DrainNothing(queue, ledger, spaceLeft, rules, races);
    ViewsDistinct(queue, pool.timeoutQueue, pool.totalSizeBytes);
    LogNothing(logs.entries, date, logs.capacity);
    while true
      invariant 0 <= n <= |queue|
      invariant pool.Valid() && pool.Queue() == queue[n..]
      invariant Drained(queue, fates, n, contents, returnToPool, rejected, ledger, ledger', rules)
      invariant Undecided(queue, fates, n, ledger', spaceLeft, rules, races)
      invariant logs.Valid()
      invariant logs.entries == LogRejections(old(logs.entries), queue[..n], fates[..n], date, logs.capacity)
      invariant fresh(pool.entries.repr - old(pool.entries.repr))
      decreases |queue| - n
    {
      var oldest := pool.RemoveOldest();
      if oldest == None {
        assert RestKept(fates, n) by { NothingLeft(fates, n); }
        break;
      }
      var (id, fragment) := oldest.value;
      var a := TryApply(fragment, ledger', rules, races(n), spaceLeft);
      DrainOne(queue, fates, n, contents, returnToPool, rejected, ledger, ledger', spaceLeft, rules, races);
      LogOne(old(logs.entries), queue, fates, n, date, logs.capacity);
      match a {
        case Committed(newLedger, newSpaceLeft) =>
          contents := contents + [(id, fragment)];
          ledger', spaceLeft := newLedger, newSpaceLeft;
        case DoesNotFit =>
          returnToPool := returnToPool + [(id, fragment)];
        case SoftDeadlineReached =>
          returnToPool := returnToPool + [(id, fragment)];
        case Refused(reason) =>
          logs.ModifyOne(id, L.Rejected(reason), date);
          rejected := rejected + 1;
      }
      n := n + 1;
      if spaceLeft == 0 {
        break;
      }
    }
    DrainAll(queue, fates, n, contents, returnToPool, rejected, ledger, ledger', rules);
    RestIsNotLogged(old(logs.entries), queue, fates, n, date, logs.capacity);
    DecideLedger(queue, ledger, rules.contentMax(ledger), rules, races, 0);
    PutBack(pool, returnToPool, queue, fates, n, contents, rejected);
  }

  lemma LogNothing(entries: seq<L.Entry>, date: BlockDate, capacity: nat)
    ensures LogRejections(entries, [], [], date, capacity) == entries
  {
  }

  lemma NothingLeft(fates: seq<Fate>, n: nat)
    requires n >= |fates|
    ensures RestKept(fates, n)
  {
  }

  lemma RestIsNotLogged(entries: seq<L.Entry>, queue: seq<Pooled>, fates: seq<Fate>, n: nat, date: BlockDate,
                        capacity: nat)
    requires |queue| == |fates| && n <= |queue| && RestKept(fates, n)
    ensures LogRejections(entries, queue, fates, date, capacity) ==
            LogRejections(entries, queue[..n], fates[..n], date, capacity)
  {
    KeptAreNotLogged(entries, queue, fates, n, date, capacity);
  }
}
