/** Choosing the tip: chain selection, tip updates and the periodic reprocessing of branches. */
module Tip {
  import opened Base
  import opened Chain

  /** A second of clock difference is tolerated. */
  const ALLOWED_TIME_DISCREPANCY: nat := 1000

  /** The time of a block's slot, in milliseconds. */
  type BlockTime = Ref -> nat

  predicate InFuture(r: Ref, time: BlockTime, now: nat) {
    time(r) > now + ALLOWED_TIME_DISCREPANCY
  }

  /** `compare_against`: the candidate wins if it is longer and begins at most a second from now. */
  predicate PreferCandidate(current: Ref, candidate: Ref, time: BlockTime, now: nat)
    ensures PreferCandidate(current, candidate, time, now) <==>
            time(candidate) <= now + 1000 && candidate.header.length > current.header.length
  {
    !InFuture(candidate, time, now) && current.header.length < candidate.header.length
  }

  /** `max_by` with `compare_against`: the running choice stays unless the next branch is preferred.
      The comparison with the n-th branch reads the clock as `clock(n)`. */
  function Best(branches: seq<Ref>, time: BlockTime, clock: nat -> nat): (r: Ref)
    requires branches != []
    ensures r in branches
  {
    var n := |branches| - 1;
    if n == 0 then branches[0]
    else
      var r := Best(branches[..n], time, clock);
      if PreferCandidate(r, branches[n], time, clock(n)) then branches[n] else r
  }

  /** Not in the future when the comparisons come to it. */
  predicate IsPresent(branches: seq<Ref>, i: nat, time: BlockTime, clock: nat -> nat)
    requires i < |branches|
  {
    !InFuture(branches[i], time, clock(i))
  }

  /** The choice is as long as every branch not in the future; it is the first branch, whatever its
      date, unless one of those is longer. */
  lemma {:induction false} BestIsLongest(branches: seq<Ref>, time: BlockTime, clock: nat -> nat)
    requires branches != []
    ensures var r := Best(branches, time, clock);
            && (forall i :: 0 <= i < |branches| && IsPresent(branches, i, time, clock) ==>
                branches[i].header.length <= r.header.length)
            && branches[0].header.length <= r.header.length
            && (|| r == branches[0]
                || exists k :: 0 < k < |branches| && r == branches[k] && IsPresent(branches, k, time, clock)
                               && branches[0].header.length < r.header.length)
  {
    var n := |branches| - 1;
    if n > 0 {
      var front, r := branches[..n], Best(branches, time, clock);
      BestIsLongest(front, time, clock);
      assert forall i :: 0 <= i < n ==> (IsPresent(front, i, time, clock) <==> IsPresent(branches, i, time, clock));
      if r != branches[0] {
        if PreferCandidate(Best(front, time, clock), branches[n], time, clock(n)) {
          assert IsPresent(branches, n, time, clock);
        } else {
          var k :| 0 < k < n && r == front[k] && IsPresent(front, k, time, clock) &&
              front[0].header.length < r.header.length;
          assert branches[k] == front[k];
        }
      }
    }
  }

  /** The tip after the chosen branch has been processed as a candidate. */
  function Reprocessed(tip: Ref, branches: seq<Ref>, time: BlockTime, clock: nat -> nat, later: nat): Ref {
    if branches != [] && PreferCandidate(tip, Best(branches, time, clock), time, later)
    then Best(branches, time, clock) else tip
  }

  ghost predicate ReadBefore(branches: seq<Ref>, clock: nat -> nat, later: nat) {
    forall i :: 0 <= i < |branches| ==> clock(i) <= later
  }

  /** With no branch in the future, one round leaves the tip as long as every branch. */
  lemma ReprocessingSettles(tip: Ref, branches: seq<Ref>, time: BlockTime, clock: nat -> nat, later: nat)
    requires ReadBefore(branches, clock, later)
    requires forall i :: 0 <= i < |branches| ==> IsPresent(branches, i, time, clock)
    ensures forall b :: b in branches ==>
              b.header.length <= Reprocessed(tip, branches, time, clock, later).header.length
  {
    if branches != [] {
      BestIsLongest(branches, time, clock);
      assert IsPresent(branches, 0, time, clock);
    }
  }

  /** In general it does for the branches not in the future unless the first branch is still in the
      future when it is processed, outlasts them all, and hides one that is longer than the tip. */
  lemma ReprocessingSettlesIff(tip: Ref, branches: seq<Ref>, time: BlockTime, clock: nat -> nat, later: nat)
    requires branches != [] && ReadBefore(branches, clock, later)
    ensures (forall i :: 0 <= i < |branches| && IsPresent(branches, i, time, clock) ==>
               branches[i].header.length <= Reprocessed(tip, branches, time, clock, later).header.length)
            <==>
            (|| !InFuture(branches[0], time, later)
             || (exists i ::
                   && 0 <= i < |branches| && IsPresent(branches, i, time, clock)
                   && branches[i].header.length > branches[0].header.length)
             || (forall i :: 0 <= i < |branches| && IsPresent(branches, i, time, clock) ==>
                 branches[i].header.length <= tip.header.length))
  {
    BestIsLongest(branches, time, clock);
  }

  /** The comparison is not an order: with a longer branch in the future the choice is whichever comes
      first, and if that is the one in the future, a tip shorter than the other stays. */
  lemma ChoiceDependsOnOrder(a: Ref, b: Ref, tip: Ref, time: BlockTime, clock: nat -> nat, later: nat)
    requires InFuture(a, time, later) && clock(0) <= later && clock(1) <= later && !InFuture(b, time, clock(1)) &&
             !InFuture(b, time, later)
    requires tip.header.length < b.header.length < a.header.length
    ensures Best([a, b], time, clock) == a && Best([b, a], time, clock) == b
    ensures Reprocessed(tip, [a, b], time, clock, later) == tip && Reprocessed(tip, [b, a], time, clock, later) == b
  {
    assert [a, b][..1] == [a] && [b, a][..1] == [b];
  }

  /** Which of the fallible parts of an update succeed. */
  datatype Services = Services(branchWalk: bool, fragmentTask: bool, putTag: bool)

  /** A candidate taken from a queue at a time. */
  datatype Processing = Processing(now: nat, stored: bool, s: Services)

  datatype Event =
    | Candidate(candidate: Ref, at: Processing)
    | Tick(seen: Ref, branches: seq<Ref>, clock: nat -> nat, same: bool, sent: bool)
    | Chosen(at: Processing)

  /** The tip, the HEAD tag, every tip so far, and the choices still to be processed. */
  datatype State = State(tip: Ref, head: HeaderHash, tips: seq<Ref>, chosen: seq<Ref>) {

    ghost predicate Prefers(candidate: Ref, time: BlockTime, now: nat) {
      time(candidate) <= now + 1000 && candidate.header.length > tip.header.length
    }

    ghost predicate Succeeds(candidate: Ref, at: Processing) {
      at.stored && at.s.putTag && at.s.fragmentTask && (candidate.header.parent == tip.header.hash || at.s.branchWalk)
    }

    /** The candidate becomes the tip, or a child's tag alone is written, or nothing happens. */
    ghost function Processed(candidate: Ref, at: Processing, time: BlockTime): State {
      if !Prefers(candidate, time, at.now) then this
      else if Succeeds(candidate, at) then State(candidate, candidate.header.hash, tips + [candidate], chosen)
      else if at.stored && at.s.putTag && candidate.header.parent == tip.header.hash
      then this.(head := candidate.header.hash)
      else this
    }

    ghost function Next(e: Event, time: BlockTime): State {
      match e
      case Candidate(candidate, at) => Processed(candidate, at, time)
      case Tick(seen, branches, clock, same, sent) =>
        if && branches != [] && !same && sent && seen in tips
        then this.(chosen := chosen + [Best(branches, time, clock)]) else this
      case Chosen(at) =>
        if chosen == [] then this else this.(chosen := chosen[1..]).Processed(chosen[0], at, time)
    }
  }

  ghost function AfterEvents(s: State, events: seq<Event>, time: BlockTime): State {
    if events == [] then s else AfterEvents(s, events[..|events| - 1], time).Next(events[|events| - 1], time)
  }

  class TipUpdater {
    const time: BlockTime
    var tip: Ref
    var head: HeaderHash       // the HEAD tag of the storage
    var tips: seq<Ref>         // every tip so far; a reprocessing task may have been started with any of them
    var chosen: seq<Ref>       // the internal queue: what reprocessing chose and is not yet processed
    ghost var headHeader: Header

    ghost predicate Valid()
      reads this
    {
      && headHeader.hash == head && headHeader.length >= tip.header.length
      && tips != [] && tips[|tips| - 1] == tip
      && forall i, j :: 0 <= i < j < |tips| ==> tips[i].header.length < tips[j].header.length
    }

    ghost function Now(): State
      reads this
    {
      State(tip, head, tips, chosen)
    }

    constructor (tip: Ref, time: BlockTime)
      ensures Valid() && this.tip == tip && head == tip.header.hash && tips == [tip] && chosen == [] &&
              this.time == time
    {
      this.tip, this.time, head, headHeader, tips, chosen := tip, time, tip.header.hash, tip.header, [tip], [];
    }

    method SwitchTipBranch(candidate: Ref, s: Services) returns (ok: bool)
      requires Valid() && tip.header.length < candidate.header.length
      modifies this
      ensures Valid() && chosen == old(chosen) && (ok <==> s.branchWalk && s.fragmentTask && s.putTag)
      ensures ok ==> tip == candidate && head == candidate.header.hash && tips == old(tips) + [candidate]
      ensures !ok ==> tip == old(tip) && head == old(head) && tips == old(tips)
    {
      if !s.branchWalk || !s.fragmentTask || !s.putTag {
        return false;
      }
      head, headHeader := candidate.header.hash, candidate.header;
      tip, tips := candidate, tips + [candidate];
      ok := true;
    }

    /** The tag is written before the fragment task is told: if that fails, HEAD is ahead of the tip. */
    method UpdateCurrentBranchTip(candidate: Ref, s: Services) returns (ok: bool)
      requires Valid() && tip.header.length < candidate.header.length
      modifies this
      ensures Valid() && chosen == old(chosen) && (ok <==> s.putTag && s.fragmentTask)
      ensures ok ==> tip == candidate && tips == old(tips) + [candidate]
      ensures !ok ==> tip == old(tip) && tips == old(tips)
      ensures head == if s.putTag then candidate.header.hash else old(head)
    {
      if !s.putTag {
        return false;
      }
      head, headHeader := candidate.header.hash, candidate.header;
      if !s.fragmentTask {
        return false;
      }
      tip, tips := candidate, tips + [candidate];
      ok := true;
    }

    method ProcessNewRef(candidate: Ref, at: Processing) returns (ok: bool)
      requires Valid()
      modifies this
      ensures Valid() && chosen == old(chosen) && Now() == old(Now()).Processed(candidate, at, time)
      ensures var preferred := time(candidate) <= at.now + 1000 && candidate.header.length > old(tip).header.length;
              var child := candidate.header.parent == old(tip).header.hash;
              if !preferred then ok && tip == old(tip) && head == old(head)
              else
                && (ok <==> at.stored && at.s.putTag && at.s.fragmentTask && (child || at.s.branchWalk))
                && tip == (if ok then candidate else old(tip))
                && head == if ok || (at.stored && child && at.s.putTag) then candidate.header.hash else old(head)
      ensures tips == if tip == old(tip) then old(tips) else old(tips) + [candidate]
    {
      if !PreferCandidate(tip, candidate, time, at.now) {
        return true;
      }
      if !at.stored {
        return false;
      }
      if tip.header.hash == candidate.header.parent {
        ok := UpdateCurrentBranchTip(candidate, at.s);
      } else {
        ok := SwitchTipBranch(candidate, at.s);
      }
    }

    /** The periodic choice among all branches, started when the tip was `seen`. It is compared as a pointer:
        `same` implies that the two are equal, not the other way round. Sending it on may fail unnoticed. */
    method ReprocessTip(seen: Ref, branches: seq<Ref>, clock: nat -> nat, same: bool, sent: bool)
      requires Valid() && (branches != [] && same ==> Best(branches, time, clock) == seen)
      modifies `chosen
      ensures Valid()
      ensures chosen == old(chosen) +
                        if branches != [] && !same && sent
                        then [Best(branches, time, clock)] else []
    {
      if branches == [] {
        return;
      }
      var best := Best(branches, time, clock);
      if !same && sent {
        chosen := chosen + [best];
      }
    }

    /** Takes the next choice out of the internal queue. */
    method ProcessChosen(at: Processing) returns (ok: bool)
      requires Valid() && chosen != []
      modifies this
      ensures Valid() && chosen == old(chosen)[1..] && (tips == old(tips) || tips == old(tips) + [old(chosen)[0]])
      ensures Now() == old(Now()).Next(Chosen(at), time)
      ensures ok ==> tip == if PreferCandidate(old(tip), old(chosen)[0], time, at.now) then old(chosen)[0] else old(tip)
      ensures !ok ==> tip == old(tip)
      ensures at.stored && at.s.branchWalk && at.s.fragmentTask && at.s.putTag ==> ok
    {
      var best := chosen[0];
      chosen := chosen[1..];
      ok := ProcessNewRef(best, at);
    }

    /** Candidates, ticks and choices in any order: every new tip is longer than all before it. */
    method Run(events: seq<Event>)
      requires Valid()
      modifies this
      ensures Valid() && old(tips) <= tips
      ensures forall i, j :: 0 <= i < j < |tips| ==> tips[i].header.length < tips[j].header.length
      ensures (forall e :: e in events ==> e.Candidate?) ==> chosen == old(chosen)
      ensures Now() == AfterEvents(old(Now()), events, time)
    {
      ghost var start := Now();
      for i := 0 to |events|
        invariant Valid() && old(tips) <= tips && Now() == AfterEvents(start, events[..i], time)
        invariant (forall e :: e in events ==> e.Candidate?) ==> chosen == old(chosen)
      {
        assert events[i] in events && events[..i + 1][..i] == events[..i];
        match events[i] {
          case Candidate(candidate, at) =>
            var _ := ProcessNewRef(candidate, at);
          case Tick(seen, branches, clock, same, sent) =>
            if seen in tips && !same {
              ReprocessTip(seen, branches, clock, same, sent);
            }
          case Chosen(at) =>
            if chosen != [] {
              var _ := ProcessChosen(at);
            }
        }
      }
      assert events[..|events|] == events;
    }

    /** A whole round: the choice is sent, other candidates come first, then it is processed. If every step
        succeeds and no branch was in the future, the tip is as long as every branch. */
    method ReprocessingRound(seen: Ref, branches: seq<Ref>, clock: nat -> nat, same: bool, sent: bool,
                             between: seq<Event>, at: Processing)
      returns (ok: bool)
      requires Valid() && chosen == [] && seen in tips && forall e :: e in between ==> e.Candidate?
      requires branches != [] && same ==> Best(branches, time, clock) == seen
      modifies this
      ensures Valid() && old(tips) <= tips && (ok ==> chosen == [])
      ensures Now() == AfterEvents(old(Now()).Next(Tick(seen, branches, clock, same, sent), time), between, time)
                       .Next(Chosen(at), time)
      ensures at.stored && at.s.branchWalk && at.s.fragmentTask && at.s.putTag ==> ok
      ensures ok && sent && ReadBefore(branches, clock, at.now) &&
              (forall i :: 0 <= i < |branches| ==> IsPresent(branches, i, time, clock)) ==>
                forall b :: b in branches ==> b.header.length <= tip.header.length
    {
      ReprocessTip(seen, branches, clock, same, sent);
      Run(between);
      assert seen.header.length <= tip.header.length by {
        var k :| 0 <= k < |old(tips)| && old(tips)[k] == seen;
        assert tips[k] == seen;
      }
      if && ReadBefore(branches, clock, at.now)
         && (forall i :: 0 <= i < |branches| ==> IsPresent(branches, i, time, clock)) {
        ReprocessingSettles(tip, branches, time, clock, at.now);
        if branches != [] {
          BestIsLongest(branches, time, clock);
        }
      }
      ok := true;
      if chosen != [] {
        ok := ProcessChosen(at);
      }
    }
  }
}
