/** The lazy generator of the slots a leader is elected for. */
module Schedule {
  import opened Base

  /** The proof is what the leader will sign the block with. */
  datatype LeaderEvent = LeaderEvent(date: BlockDate, proof: nat)

  /** The elected slots in `from .. upTo`, in order. */
  ghost function Elections(epoch: nat, elected: nat -> Option<nat>, from: nat, upTo: nat): (events: seq<LeaderEvent>)
    decreases upTo - from
  {
    if from >= upTo then []
    else (if elected(from).Some? then [LeaderEvent(BlockDate(epoch, from), elected(from).value)] else [])
         + Elections(epoch, elected, from + 1, upTo)
  }

  ghost predicate IsElected(epoch: nat, elected: nat -> Option<nat>, from: nat, upTo: nat, e: LeaderEvent) {
    e.date.epoch == epoch && from <= e.date.slot < upTo && elected(e.date.slot) == Some(e.proof)
  }

  ghost predicate InSlotOrder(events: seq<LeaderEvent>) {
    forall i, j :: 0 <= i < j < |events| ==> events[i].date.slot < events[j].date.slot
  }

  /** Each elected slot once, in order, and nothing else. */
  lemma {:induction false} ElectionsAreExact(epoch: nat, elected: nat -> Option<nat>, from: nat, upTo: nat)
    ensures forall e :: e in Elections(epoch, elected, from, upTo) <==> IsElected(epoch, elected, from, upTo, e)
    ensures InSlotOrder(Elections(epoch, elected, from, upTo))
    decreases upTo - from
  {
    if from < upTo {
      var events, rest := Elections(epoch, elected, from, upTo), Elections(epoch, elected, from + 1, upTo);
      ElectionsAreExact(epoch, elected, from + 1, upTo);
      if elected(from).Some? {
        var first := LeaderEvent(BlockDate(epoch, from), elected(from).value);
        assert events == [first] + rest;
        forall e
          ensures IsElected(epoch, elected, from, upTo, e) <==>
                  e == first || IsElected(epoch, elected, from + 1, upTo, e)
        {
        }
        assert forall i :: 0 <= i < |rest| ==> rest[i] in rest;
      } else {
        assert events == rest;
      }
    }
  }

  class Schedule {
    const hasLeader: bool
    const epoch: nat
    const elected: nat -> Option<nat>
    var currentSlot: nat
    const stopAtSlot: nat
    var currentSlotData: seq<LeaderEvent>

    ghost predicate Valid()
      reads this
    {
      && currentSlot <= stopAtSlot
      && |currentSlotData| <= 1
      && (!hasLeader ==> currentSlotData == [])
    }

    /** The events still to come, the one already looked up first. */
    ghost function Remaining(): seq<LeaderEvent>
      reads this
    {
      currentSlotData + if hasLeader then Elections(epoch, elected, currentSlot, stopAtSlot) else []
    }

    constructor (hasLeader: bool, epoch: nat, elected: nat -> Option<nat>, slotStart: nat, nbSlots: nat)
      ensures Valid() && this.epoch == epoch
      ensures Remaining() == if hasLeader then Elections(epoch, elected, slotStart, slotStart + nbSlots) else []
    {
      this.hasLeader, this.epoch, this.elected := hasLeader, epoch, elected;
      currentSlot, stopAtSlot, currentSlotData := slotStart, slotStart + nbSlots, [];
    }

    /** Looks ahead to the next elected slot; what is to come does not change. */
    method Fill()
      requires Valid()
      modifies this
      ensures Valid() && Remaining() == old(Remaining())
      ensures currentSlotData == [] ==> Remaining() == []
    {
      if !hasLeader || currentSlotData != [] {
        return;
      }
      while currentSlot < stopAtSlot && currentSlotData == []
        invariant Valid() && Remaining() == old(Remaining())
        decreases stopAtSlot - currentSlot
      {
        var date := BlockDate(epoch, currentSlot);
        match elected(currentSlot) {
          case None =>
          case Some(proof) => currentSlotData := currentSlotData + [LeaderEvent(date, proof)];
        }
        currentSlot := currentSlot + 1;
      }
    }

    method NextEvent() returns (r: Option<LeaderEvent>)
      requires Valid()
      modifies this
      ensures Valid()
      ensures old(Remaining()) == [] ==> r == None && Remaining() == []
      ensures old(Remaining()) != [] ==> r == Some(old(Remaining())[0]) && Remaining() == old(Remaining())[1..]
    {
      Fill();
      if currentSlotData == [] {
        r := None;
      } else {
        r := Some(currentSlotData[|currentSlotData| - 1]);
        currentSlotData := currentSlotData[..|currentSlotData| - 1];
      }
    }

    method Peek() returns (r: Option<LeaderEvent>)
      requires Valid()
      modifies this
      ensures Valid() && Remaining() == old(Remaining())
      ensures r == if Remaining() == [] then None else Some(Remaining()[0])
    {
      Fill();
      r := if currentSlotData == [] then None else Some(currentSlotData[|currentSlotData| - 1]);
    }
  }
}
