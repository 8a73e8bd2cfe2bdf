/** The leadership task: it acts on elected slots and waits for the next one. */
module Leadership {
  import opened Base
  import opened Schedule
  import opened Chain

  /** Slots of a fixed duration from a start time, grouped into epochs of a fixed size. */
  datatype TimeFrame = TimeFrame(start: nat, slotDuration: nat, slotsPerEpoch: nat) {
    ghost predicate Valid() {
      slotDuration > 0 && slotsPerEpoch > 0
    }

    function SlotTime(slot: nat): nat {
      start + slot * slotDuration
    }

    /** When an epoch begins. */
    function EpochTime(epoch: nat): nat {
      SlotTime(epoch * slotsPerEpoch)
    }

    function SlotAt(time: nat): (slot: nat)
      requires Valid() && start <= time
    {
      (time - start) / slotDuration
    }

    function FromEra(date: BlockDate): nat {
      date.epoch * slotsPerEpoch + date.slot
    }

    function ToEra(slot: nat): (date: BlockDate)
      requires Valid()
      ensures date.slot < slotsPerEpoch && FromEra(date) == slot
    {
      BlockDate(slot / slotsPerEpoch, slot % slotsPerEpoch)
    }

    /** The slot `n` ahead, as the code computes it. */
    function NthFuture(date: BlockDate, n: nat): nat {
      if slotsPerEpoch <= date.slot + n then FromEra(BlockDate(date.epoch + n, 0))
      else FromEra(BlockDate(date.epoch, date.slot + n))
    }
  }

  lemma MulMonotone(a: nat, b: nat, c: nat)
    requires a <= b
    ensures a * c <= b * c
  {
  }

  /** A slot has begun exactly when the slot at that time is it or a later one. */
  lemma SlotBegun(tf: TimeFrame, slot: nat, time: nat)
    requires tf.Valid() && tf.start <= time
    ensures tf.SlotTime(slot) <= time <==> slot <= tf.SlotAt(time)
  {
    var d, q := tf.slotDuration, tf.SlotAt(time);
    assert time - tf.start == q * d + (time - tf.start) % d;
    if slot <= q {
      MulMonotone(slot, q, d);
    } else {
      MulMonotone(q + 1, slot, d);
    }
  }

  lemma NotBeforeStart(tf: TimeFrame, epoch: nat)
    ensures tf.start <= tf.EpochTime(epoch)
  {
  }

  lemma EpochReached(tf: TimeFrame, epoch: nat, slot: nat)
    requires tf.Valid() && epoch * tf.slotsPerEpoch <= slot
    ensures epoch <= tf.ToEra(slot).epoch
  {
    var s, date := tf.slotsPerEpoch, tf.ToEra(slot);
    if date.epoch < epoch {
      MulMonotone(date.epoch + 1, epoch, s);
    }
  }

  /** Counting slots ahead is right inside the epoch, and across its end for one slot only. */
  lemma NthFutureIsExactly(tf: TimeFrame, date: BlockDate, n: nat)
    requires tf.Valid() && date.slot < tf.slotsPerEpoch
    ensures tf.NthFuture(date, n) == tf.FromEra(date) + n <==>
            date.slot + n < tf.slotsPerEpoch || n == 1 || tf.slotsPerEpoch == 1
    ensures tf.NthFuture(date, n) >= tf.FromEra(date) + n
    ensures tf.slotsPerEpoch <= date.slot + n ==> tf.NthFuture(date, n) == (date.epoch + n) * tf.slotsPerEpoch
  {
    var s := tf.slotsPerEpoch;
    if s <= date.slot + n {
      assert (date.epoch + n) * s == date.epoch * s + n * s;
      assert n * s == n * (s - 1) + n;
      if n >= 2 && s > 1 {
        MulMonotone(2, n, s - 1);
      } else {
        MulMonotone(1, n, s - 1);
      }
    }
  }

  /** From the last slot of a two-slot epoch, two slots ahead is computed as three. */
  lemma TwoAheadIsThree(tf: TimeFrame, epoch: nat)
    requires tf.slotsPerEpoch == 2
    ensures tf.NthFuture(BlockDate(epoch, 1), 2) == tf.FromEra(BlockDate(epoch, 1)) + 3
  {
  }

  datatype BuildResult = Signed | NotSigned | LedgerError

  /** What the environment contributes to one step: how far the clock runs on between readings, the
      election, the outcome of building, and the tip after waking up. */
  datatype Input = Input(actionDelay: nat, startDelay: nat, waitDelay: nat, wakeDelay: nat,
                         elected: nat -> Option<nat>, build: BuildResult, tip: Ref)

  datatype Status =
    | Running
    | TooEarly             // the blockchain has not started
    | DeadlineMissed       // the event ended between two readings of the clock
    | BuildFailed
    | NoSchedule           // nothing to wait for: no schedule could ever be made, the tip being ahead of the clock
    | NextEpochInThePast   // the schedule in force is used up and the epoch after it has begun

  datatype BuiltBlock = BuiltBlock(date: BlockDate, parent: Header, at: nat)

  ghost predicate Increasing(dates: seq<BlockDate>) {
    forall i, j :: 0 <= i < j < |dates| ==> dates[i].Before(dates[j])
  }

  /** On top of an earlier tip, and started within the slot it is for. */
  ghost predicate InItsSlot(tf: TimeFrame, b: BuiltBlock) {
    b.parent.date.Before(b.date) && tf.SlotTime(tf.FromEra(b.date)) <= b.at <= tf.SlotTime(tf.FromEra(b.date) + 1)
  }

  /** What is still scheduled lies in one epoch, in order, after everything acted on. */
  ghost predicate Ahead(events: seq<LeaderEvent>, epoch: nat, slots: nat, acted: seq<BlockDate>) {
    && (forall i :: 0 <= i < |events| ==> events[i].date.epoch == epoch && events[i].date.slot < slots)
    && (forall i, j :: 0 <= i < j < |events| ==> events[i].date.slot < events[j].date.slot)
    && (forall k :: 0 <= k < |acted| ==> acted[k].epoch <= epoch)
    && (forall i, k :: 0 <= i < |events| && 0 <= k < |acted| ==> acted[k].Before(events[i].date))
  }

  lemma ActOnNext(events: seq<LeaderEvent>, epoch: nat, slots: nat, acted: seq<BlockDate>)
    requires Ahead(events, epoch, slots, acted) && events != [] && Increasing(acted)
    ensures Increasing(acted + [events[0].date])
    ensures Ahead(events[1..], epoch, slots, acted + [events[0].date])
  {
  }

  lemma NewEpochIsAhead(oldEpoch: int, epoch: nat, slots: nat, elected: nat -> Option<nat>, from: nat,
                        acted: seq<BlockDate>)
    requires oldEpoch < epoch && forall k :: 0 <= k < |acted| ==> acted[k].epoch <= oldEpoch
    ensures Ahead(Elections(epoch, elected, from, slots), epoch, slots, acted)
    ensures Ahead([], epoch, slots, acted)
  {
    ElectionsAreExact(epoch, elected, from, slots);
    var events := Elections(epoch, elected, from, slots);
    assert forall i :: 0 <= i < |events| ==> events[i] in events;
  }

  lemma AheadEpochs(events: seq<LeaderEvent>, epoch: nat, slots: nat, acted: seq<BlockDate>)
    requires Ahead(events, epoch, slots, acted)
    ensures forall k :: 0 <= k < |acted| ==> acted[k].epoch <= epoch
  {
  }

  /** Once the next epoch has begun, the clock is in a later epoch. */
  lemma EpochIsOver(tf: TimeFrame, epoch: nat, now: nat)
    requires tf.Valid() && tf.start <= now && tf.EpochTime(epoch + 1) <= now
    ensures epoch < tf.ToEra(tf.SlotAt(now)).epoch
  {
    SlotBegun(tf, (epoch + 1) * tf.slotsPerEpoch, now);
    EpochReached(tf, epoch + 1, tf.SlotAt(now));
  }

  ghost predicate Logged(tf: TimeFrame, acted: seq<BlockDate>, built: seq<BuiltBlock>) {
    && Increasing(acted)
    && (forall i :: 0 <= i < |built| ==> built[i].date in acted && InItsSlot(tf, built[i]))
    && (forall i, j :: 0 <= i < j < |built| ==> built[i].date.Before(built[j].date))
  }

  lemma LoggedFacts(tf: TimeFrame, acted: seq<BlockDate>, built: seq<BuiltBlock>)
    requires Logged(tf, acted, built)
    ensures Increasing(acted) && forall i, j :: 0 <= i < j < |built| ==> built[i].date.Before(built[j].date)
    ensures forall i :: 0 <= i < |built| ==> InItsSlot(tf, built[i])
  {
    hide InItsSlot;
  }

  lemma ActIsLogged(tf: TimeFrame, events: seq<LeaderEvent>, epoch: nat, slots: nat, acted: seq<BlockDate>,
                    built: seq<BuiltBlock>)
    requires Logged(tf, acted, built) && Ahead(events, epoch, slots, acted) && events != []
    ensures Logged(tf, acted + [events[0].date], built)
    ensures forall b: BuiltBlock :: b.date == events[0].date && InItsSlot(tf, b) ==>
            Logged(tf, acted + [events[0].date], built + [b])
    ensures events[0].date.slot < slots && Ahead(events[1..], epoch, slots, acted + [events[0].date])
  {
    ActOnNext(events, epoch, slots, acted);
    var date := events[0].date;
    assert (acted + [date])[|acted|] == date;
  }

  /** The elections a schedule was made from, starting at a slot of an epoch. */
  datatype Plan = Plan(epoch: nat, elected: nat -> Option<nat>, from: nat)

  ghost function Dates(events: seq<LeaderEvent>): (dates: seq<BlockDate>)
    ensures |dates| == |events| && forall i :: 0 <= i < |events| ==> dates[i] == events[i].date
  {
    seq(|events|, i requires 0 <= i < |events| => events[i].date)
  }

  /** Every date elected in the plans, one plan after the other. */
  ghost function Planned(plans: seq<Plan>, slots: nat): seq<BlockDate> {
    if plans == [] then []
    else
      var p := plans[|plans| - 1];
      Planned(plans[..|plans| - 1], slots) + Dates(Elections(p.epoch, p.elected, p.from, slots))
  }

  lemma OneMorePlan(plans: seq<Plan>, p: Plan, slots: nat)
    ensures Planned(plans + [p], slots) == Planned(plans, slots) + Dates(Elections(p.epoch, p.elected, p.from, slots))
    ensures StartLate(plans) && p.from > 0 ==> StartLate(plans + [p])
  {
    assert (plans + [p])[..|plans|] == plans;
  }

  lemma OneMoreDate(acted: seq<BlockDate>, events: seq<LeaderEvent>)
    requires events != []
    ensures acted + Dates(events) == acted + [events[0].date] + Dates(events[1..])
  {
    assert Dates(events) == [events[0].date] + Dates(events[1..]);
  }

  lemma NothingAhead(acted: seq<BlockDate>, slots: nat)
    ensures acted + Dates([]) == acted && Planned([], slots) == []
  {
  }

  /** A schedule for a later epoch, or an empty one, continues what was planned and acted on. */
  lemma PlanIsAhead(hasLeader: bool, oldEpoch: int, p: Plan, slots: nat, acted: seq<BlockDate>, plans: seq<Plan>)
    requires oldEpoch < p.epoch && (forall k :: 0 <= k < |acted| ==> acted[k].epoch <= oldEpoch)
    requires Planned(plans, slots) == acted && StartLate(plans) && p.from > 0
    ensures var events := if hasLeader then Elections(p.epoch, p.elected, p.from, slots) else [];
            var plans' := if hasLeader then plans + [p] else plans;
            Ahead(events, p.epoch, slots, acted) && Planned(plans', slots) == acted + Dates(events) && StartLate(plans')
  {
    hide Ahead, Elections, Planned, StartLate, Dates;
    NewEpochIsAhead(oldEpoch, p.epoch, slots, p.elected, p.from, acted);
    NothingAhead(acted, slots);
    OneMorePlan(plans, p, slots);
  }

  ghost predicate IsPlanned(plans: seq<Plan>, slots: nat, date: BlockDate) {
    exists i :: 0 <= i < |plans| && IsInPlan(plans[i], slots, date)
  }

  ghost predicate IsInPlan(p: Plan, slots: nat, date: BlockDate) {
    date.epoch == p.epoch && p.from <= date.slot < slots && p.elected(date.slot).Some?
  }

  lemma PlanDates(p: Plan, slots: nat, date: BlockDate)
    ensures date in Dates(Elections(p.epoch, p.elected, p.from, slots)) <==> IsInPlan(p, slots, date)
  {
    hide Elections;
    ElectionsAreExact(p.epoch, p.elected, p.from, slots);
    var events := Elections(p.epoch, p.elected, p.from, slots);
    if date in Dates(events) {
      var i :| 0 <= i < |events| && events[i].date == date;
      assert events[i] in events;
    }
    if IsInPlan(p, slots, date) {
      var e := LeaderEvent(date, p.elected(date.slot).value);
      assert e in events;
      var i :| 0 <= i < |events| && events[i] == e;
      assert Dates(events)[i] == date;
    }
  }

  /** A date is planned exactly when it is elected in a plan that has not begun after it. */
  lemma {:induction false} PlannedExactly(plans: seq<Plan>, slots: nat, date: BlockDate)
    ensures date in Planned(plans, slots) <==> IsPlanned(plans, slots, date)
  {
    hide Elections, IsInPlan;
    if plans != [] {
      var front, last := plans[..|plans| - 1], plans[|plans| - 1];
      PlannedExactly(front, slots, date);
      PlanDates(last, slots, date);
      if IsPlanned(front, slots, date) {
        var i :| 0 <= i < |front| && IsInPlan(front[i], slots, date);
        assert IsInPlan(plans[i], slots, date);
      }
      if IsPlanned(plans, slots, date) {
        var i :| 0 <= i < |plans| && IsInPlan(plans[i], slots, date);
        assert i < |front| ==> front[i] == plans[i];
      }
    }
  }

  /** A schedule starts after the slot it is made in. */
  ghost predicate StartLate(plans: seq<Plan>) {
    forall i :: 0 <= i < |plans| ==> plans[i].from > 0
  }

  /** So the first slot of an epoch is never planned, elected or not. */
  lemma FirstSlotIsNotPlanned(plans: seq<Plan>, slots: nat)
    requires StartLate(plans)
    ensures forall d :: d in Planned(plans, slots) ==> d.slot > 0
  {
    hide Planned;
    forall d | d in Planned(plans, slots)
      ensures d.slot > 0
    {
      PlannedExactly(plans, slots, d);
    }
  }

  /** With every slot of a two-slot epoch elected, a schedule made in the first slot plans the second only. */
  lemma ElectedFirstSlotIsLost(epoch: nat, elected: nat -> Option<nat>)
    requires elected(0).Some? && elected(1).Some?
    ensures Planned([Plan(epoch, elected, 1)], 2) == [BlockDate(epoch, 1)]
    ensures Dates(Elections(epoch, elected, 0, 2)) == [BlockDate(epoch, 0), BlockDate(epoch, 1)]
  {
    var plans := [Plan(epoch, elected, 1)];
    var none: seq<Plan> := [];
    assert plans[..0] == none && Planned(none, 2) == [];
    assert Elections(epoch, elected, 2, 2) == [];
    assert Elections(epoch, elected, 1, 2) == [LeaderEvent(BlockDate(epoch, 1), elected(1).value)];
  }

  lemma PlannedIsLate(plans: seq<Plan>, slots: nat, acted: seq<BlockDate>, rest: seq<BlockDate>)
    requires StartLate(plans) && Planned(plans, slots) == acted + rest
    ensures forall d :: d in acted ==> d.slot > 0
  {
    hide Planned;
    FirstSlotIsNotPlanned(plans, slots);
    assert forall d :: d in acted ==> d in acted + rest;
  }

  /** The state of the task between two steps, and what becomes of it. */
  datatype Task = Task(tf: TimeFrame, hasLeader: bool, hard: nat, epoch: Option<nat>, left: seq<LeaderEvent>, tip: Ref,
                       now: nat, acted: seq<BlockDate>, built: seq<BuiltBlock>, plans: seq<Plan>) {

    ghost predicate Busy() {
      epoch.Some? && left != []
    }

    /** A used-up schedule means its epoch is over. */
    ghost predicate Rested() {
      epoch.Some? && left == [] ==> tf.EpochTime(epoch.value + 1) <= now
    }

    /** The first reading of the clock in a step. */
    ghost function ReadAt(input: Input): nat {
      now + input.actionDelay
    }

    ghost predicate TipIsAhead(input: Input)
      requires tf.Valid()
    {
      tf.start <= ReadAt(input) && tip.header.date.epoch > tf.ToEra(tf.SlotAt(ReadAt(input))).epoch
    }

    /** The slot of the next event is not over yet. */
    ghost predicate Starts(input: Input) {
      Busy() && ReadAt(input) < tf.SlotTime(tf.FromEra(left[0].date) + 1)
    }

    ghost function StartedAt(input: Input): nat
      requires Busy()
    {
      var begin := tf.SlotTime(tf.FromEra(left[0].date));
      (if ReadAt(input) < begin then begin else ReadAt(input)) + input.startDelay
    }

    /** The event is over, or past its hard deadline, at the second reading. */
    ghost predicate Misses(input: Input) {
      && Starts(input)
      && (|| tf.SlotTime(tf.FromEra(left[0].date) + 1) < StartedAt(input)
          || tf.SlotTime(tf.NthFuture(left[0].date, hard)) < StartedAt(input))
    }

    /** A block is tried: in time, and on a tip older than the slot. */
    ghost predicate Tries(input: Input) {
      Starts(input) && !Misses(input) && IsLater(left[0].date, tip.header.date)
    }

    ghost function ActedBy(input: Input): nat {
      if Starts(input) then StartedAt(input) else ReadAt(input)
    }

    /** The rest of the clock's epoch is scheduled. */
    ghost predicate Schedules(input: Input)
      requires tf.Valid()
    {
      !Busy() && tf.start <= ReadAt(input) && !TipIsAhead(input)
    }

    ghost function NewPlan(input: Input): Plan
      requires tf.Valid() && tf.start <= ReadAt(input)
    {
      var position := tf.ToEra(tf.SlotAt(ReadAt(input)));
      Plan(position.epoch, input.elected, position.slot + 1)
    }

    ghost function ActStatus(input: Input): Status {
      if Misses(input) then DeadlineMissed
      else if Tries(input) && input.build == LedgerError then BuildFailed
      else if !Busy() && ReadAt(input) < tf.start then TooEarly
      else Running
    }

    /** After the action: the next event is acted on, or a new schedule is made. */
    ghost function Acted(input: Input): Task
      requires tf.Valid()
    {
      if Busy() then
        var block := BuiltBlock(left[0].date, tip.header, ActedBy(input));
        this.(now := ActedBy(input), left := left[1..], acted := acted + [left[0].date],
              built := if Tries(input) && input.build == Signed then built + [block] else built)
      else if Schedules(input) then
        var p := NewPlan(input);
        this.(now := ReadAt(input), epoch := Some(p.epoch),
              left := if hasLeader then Elections(p.epoch, p.elected, p.from, tf.slotsPerEpoch) else [],
              plans := if hasLeader then plans + [p] else plans)
      else this.(now := ReadAt(input))
    }

    /** The time to wake up at: the next event, or the next epoch. */
    ghost function WakeTime(): nat
      requires epoch.Some?
    {
      if left == [] then tf.EpochTime(epoch.value + 1) else tf.SlotTime(tf.FromEra(left[0].date))
    }

    ghost function WaitStatus(input: Input): Status {
      if epoch.None? then NoSchedule
      else if left == [] && WakeTime() < now + input.waitDelay then NextEpochInThePast
      else Running
    }

    ghost function Waited(input: Input): Task {
      match WaitStatus(input)
      case Running =>
        var read := now + input.waitDelay;
        this.(tip := input.tip, now := if read < WakeTime() || left == [] then WakeTime() + input.wakeDelay else read)
      case NextEpochInThePast => this.(now := now + input.waitDelay)
      case _ => this
    }

    ghost function StepStatus(input: Input): Status
      requires tf.Valid()
    {
      if ActStatus(input) != Running then ActStatus(input) else Acted(input).WaitStatus(input)
    }

    ghost function Stepped(input: Input): Task
      requires tf.Valid()
    {
      if ActStatus(input) != Running then Acted(input) else Acted(input).Waited(input)
    }

    /** What the state says when the task has stopped with a status. */
    ghost predicate Explains(status: Status)
      requires tf.Valid()
    {
      match status
      case Running => Rested()
      case TooEarly => epoch == None && now < tf.start
      case NoSchedule => epoch == None && tf.start <= now && tip.header.date.epoch > tf.ToEra(tf.SlotAt(now)).epoch
      case DeadlineMissed =>
        && acted != []
        && var date := acted[|acted| - 1];
           tf.SlotTime(tf.FromEra(date) + 1) < now || tf.SlotTime(tf.NthFuture(date, hard)) < now
      case BuildFailed => acted != [] && IsLater(acted[|acted| - 1], tip.header.date)
      case NextEpochInThePast =>
        epoch.Some? && left == [] && tf.EpochTime(epoch.value + 1) < now
    }

    /** Nothing is left after the action, and the next epoch has begun when the task looks for it. */
    ghost predicate Overruns(input: Input)
      requires tf.Valid()
    {
      && ActStatus(input) == Running && Acted(input).epoch.Some? && Acted(input).left == []
      && tf.EpochTime(Acted(input).epoch.value + 1) < ActedBy(input) + input.waitDelay
    }
  }

  /** What a step leaves behind explains its status. */
  lemma StepExplained(task: Task, input: Input)
    requires task.tf.Valid() && task.Rested()
    ensures task.StepStatus(input) != Running ==> task.Stepped(input).Explains(task.StepStatus(input))
  {
    hide TimeFrame.EpochTime, TimeFrame.SlotTime, TimeFrame.SlotAt, TimeFrame.ToEra, TimeFrame.FromEra,
         TimeFrame.NthFuture, Elections;
    if task.epoch.Some? {
      NotBeforeStart(task.tf, task.epoch.value + 1);
    }
  }

  /** Exactly when a step ends with each status, told from the state before it. */
  lemma StatusIff(task: Task, input: Input)
    requires task.tf.Valid() && task.Rested()
    ensures var status := task.StepStatus(input);
            && (status == TooEarly <==> task.epoch == None && task.ReadAt(input) < task.tf.start)
            && (status == NoSchedule <==> task.epoch == None && task.TipIsAhead(input))
            && (status == DeadlineMissed <==> task.Misses(input))
            && (status == BuildFailed <==> task.Tries(input) && input.build == LedgerError)
            && (status == NextEpochInThePast <==> task.Overruns(input))
  {
    hide TimeFrame.EpochTime, TimeFrame.SlotTime, TimeFrame.SlotAt, TimeFrame.ToEra, TimeFrame.FromEra,
         TimeFrame.NthFuture, Elections;
    if task.epoch.Some? {
      NotBeforeStart(task.tf, task.epoch.value + 1);
    }
  }

  /** With the tip ahead of the clock a used-up schedule is not renewed, and the task stops unless the
      clock stands still on the very instant the next epoch begins. */
  lemma TipAheadStops(task: Task, input: Input)
    requires task.tf.Valid() && task.Rested() && task.epoch.Some? && !task.Busy() && task.TipIsAhead(input)
    ensures task.StepStatus(input) == NextEpochInThePast <==>
            || task.tf.EpochTime(task.epoch.value + 1) < task.now
            || input.actionDelay + input.waitDelay > 0
  {
    hide TimeFrame.EpochTime, TimeFrame.SlotTime, TimeFrame.SlotAt, TimeFrame.ToEra, Elections;
  }

  ghost function AfterSteps(task: Task, inputs: seq<Input>): (r: Task)
    requires task.tf.Valid()
    ensures r.tf == task.tf
  {
    if inputs == [] then task else AfterSteps(task, inputs[..|inputs| - 1]).Stepped(inputs[|inputs| - 1])
  }

  class Module {
    const tf: TimeFrame
    const hasLeader: bool
    const blockHardDeadline: nat
    var schedule: Schedule?
    var tip: Ref
    var now: nat                    // the latest reading of the clock
    ghost var acted: seq<BlockDate>
    ghost var built: seq<BuiltBlock>
    ghost var plans: seq<Plan>      // what every schedule so far was made from

    ghost predicate Valid()
      reads this, schedule
    {
      && tf.Valid() && tip.leadership == tip.header.date.epoch
      && Logged(tf, acted, built)
      && (schedule == null ==> acted == [] && plans == []) && StartLate(plans)
      && (schedule != null ==> Planned(plans, tf.slotsPerEpoch) == acted + Dates(schedule.Remaining()))
      && (schedule != null ==> schedule.Valid() && Ahead(schedule.Remaining(), schedule.epoch, tf.slotsPerEpoch, acted))
    }

    ghost function Now(): Task
      reads this, schedule
    {
      Task(tf, hasLeader, blockHardDeadline, if schedule == null then None else Some(schedule.epoch),
           if schedule == null then [] else schedule.Remaining(), tip, now, acted, built, plans)
    }

    /** Between steps a used-up schedule means its epoch is over. */
    ghost predicate Rested()
      reads this, schedule
    {
      Now().Rested()
    }

    constructor (tf: TimeFrame, hasLeader: bool, blockHardDeadline: nat, tip: Ref, now: nat)
      requires tf.Valid() && tip.leadership == tip.header.date.epoch
      ensures Valid() && Rested() && schedule == null && acted == [] && built == [] && plans == []
      ensures this.tf == tf && this.hasLeader == hasLeader && this.blockHardDeadline == blockHardDeadline
      ensures this.tip == tip && this.now == now
    {
      this.tf, this.hasLeader, this.blockHardDeadline, this.tip, this.now := tf, hasLeader, blockHardDeadline, tip, now;
      schedule, acted, built, plans := null, [], [], [];
    }

    /** What acting on an event at a given time has come to. */
    ghost predicate Ran(event: LeaderEvent, input: Input, before: nat, builtBefore: seq<BuiltBlock>, status: Status)
      reads this
    {
      var begin, end := tf.SlotTime(tf.FromEra(event.date)), tf.SlotTime(tf.FromEra(event.date) + 1);
      var started := (if before < begin then begin else before) + input.startDelay;
      var hard := tf.SlotTime(tf.NthFuture(event.date, blockHardDeadline));
      var b := BuiltBlock(event.date, tip.header, started);
      if end <= before then status == Running && now == before && built == builtBefore
      else
        && now == started
        && (status == DeadlineMissed <==> end < now || hard < now)
        && built == (if status == Running && tip.header.date.Before(event.date) && input.build == Signed
                     then builtBefore + [b] else builtBefore)
        && (status == BuildFailed <==>
              status != DeadlineMissed && tip.header.date.Before(event.date) && input.build == LedgerError)
        && (status == Running || status == DeadlineMissed || status == BuildFailed)
        && (built != builtBefore ==> InItsSlot(tf, b))
    }

    /** What scheduling has come to: the rest of the clock's epoch, unless the tip is ahead of it. */
    ghost predicate Scheduled(input: Input, before: Schedule?, plansBefore: seq<Plan>, status: Status)
      requires tf.Valid()
      reads this, schedule
    {
      && status == (if now < tf.start then TooEarly else Running)
      && (now < tf.start ==> schedule == before && plans == plansBefore)
      && (now >= tf.start ==>
            var position := tf.ToEra(tf.SlotAt(now));
            if tip.header.date.epoch > position.epoch then schedule == before && plans == plansBefore
            else
              && schedule != null && schedule.epoch == position.epoch
              && var plan := Plan(position.epoch, input.elected, position.slot + 1);
                 && plans == plansBefore + (if hasLeader then [plan] else [])
                 && schedule.Remaining() ==
                    if hasLeader then Elections(plan.epoch, plan.elected, plan.from, tf.slotsPerEpoch) else [])
    }

    /** Not before the slot begins and not after it ends; only on a tip older than the slot. */
    method RunEntry(event: LeaderEvent, input: Input) returns (status: Status)
      requires tf.Valid() && event.date.slot < tf.slotsPerEpoch
      modifies `now, `built
      ensures Ran(event, input, old(now), old(built), status) && now >= old(now)
      ensures built == old(built) ||
              (var b := BuiltBlock(event.date, tip.header, now); built == old(built) + [b] && InItsSlot(tf, b))
    {
      NthFutureIsExactly(tf, event.date, 1);
      var eventStart := tf.SlotTime(tf.FromEra(event.date));
      var eventEnd := tf.SlotTime(tf.NthFuture(event.date, 1));
      var eventEndHard := tf.SlotTime(tf.NthFuture(event.date, blockHardDeadline));
      if eventEnd <= now {
        return Running;
      }
      if now < eventStart {
        now := eventStart;
      }
      now := now + input.startDelay;
      if eventEnd < now || eventEndHard < now {
        return DeadlineMissed;
      }
      if tip.header.date.Before(event.date) {
        if input.build == LedgerError {
          return BuildFailed;
        }
        if input.build == Signed {
          built := built + [BuiltBlock(event.date, tip.header, now)];
        }
      }
      status := Running;
    }

    /** A new schedule covers the rest of the current epoch; a tip ahead of the clock leaves things as they are. */
    method ScheduleEpoch(input: Input) returns (status: Status)
      requires Valid() && Rested() && (schedule != null ==> schedule.Remaining() == [])
      modifies `schedule, `plans
      ensures Valid()
      ensures schedule != old(schedule) ==> fresh(schedule)
      ensures old(plans) <= plans && Scheduled(input, old(schedule), old(plans), status)
    {
      hide Logged, Ahead, Elections, Planned, StartLate, Dates;
      hide TimeFrame.EpochTime, TimeFrame.SlotTime, TimeFrame.SlotAt, TimeFrame.ToEra, TimeFrame.FromEra;
      if now < tf.start {
        return TooEarly;
      }
      var position := tf.ToEra(tf.SlotAt(now));
      var epochTip := tip.header.date.epoch;
      if epochTip <= position.epoch {
        var epoch := if epochTip < position.epoch then position.epoch else tip.leadership;
        var slotStart := position.slot + 1;
        var nbSlots := tf.slotsPerEpoch - slotStart;
        ghost var oldEpoch := if schedule == null then -1 else schedule.epoch;
        if schedule != null {
          EpochIsOver(tf, schedule.epoch, now);
          AheadEpochs([], schedule.epoch, tf.slotsPerEpoch, acted);
        }
        NothingAhead(acted, tf.slotsPerEpoch);
        ghost var plan := Plan(epoch, input.elected, slotStart);
        PlanIsAhead(hasLeader, oldEpoch, plan, tf.slotsPerEpoch, acted, plans);
        plans := if hasLeader then plans + [plan] else plans;
        schedule := new Schedule(hasLeader, epoch, input.elected, slotStart, nbSlots);
      }
      status := Running;
    }

    method Action(input: Input) returns (status: Status)
      requires Valid() && Rested()
      modifies this, schedule
      ensures Valid() && now >= old(now) && tip == old(tip)
      ensures old(acted) <= acted && old(built) <= built && old(plans) <= plans
      ensures schedule != old(schedule) ==> fresh(schedule)
      ensures if old(schedule) != null && old(schedule.Remaining()) != []
              then
                && schedule == old(schedule) && schedule.Remaining() == old(schedule.Remaining())[1..]
                && acted == old(acted) + [old(schedule.Remaining())[0].date]
                && plans == old(plans)
                && Ran(old(schedule.Remaining())[0], input, old(now) + input.actionDelay, old(built), status)
              else
                && acted == old(acted) && built == old(built)
                && now == old(now) + input.actionDelay && Scheduled(input, old(schedule), old(plans), status)
                && (schedule != null && schedule == old(schedule) ==> schedule.Remaining() == [])
    {
      hide Logged, Ahead, Elections, InItsSlot, Planned, Ran, Scheduled, StartLate, Dates;
      hide TimeFrame.EpochTime, TimeFrame.SlotTime, TimeFrame.SlotAt, TimeFrame.ToEra, TimeFrame.FromEra;
      now := now + input.actionDelay;
      if schedule != null {
        ghost var events := schedule.Remaining();
        var next := schedule.NextEvent();
        if next.Some? {
          OneMoreDate(acted, events);
          ActIsLogged(tf, events, schedule.epoch, tf.slotsPerEpoch, acted, built);
          acted := acted + [next.value.date];
          status := RunEntry(next.value, input);
          return;
        }
      }
      status := ScheduleEpoch(input);
    }

    method Wait(input: Input) returns (status: Status)
      requires Valid() && input.tip.leadership == input.tip.header.date.epoch
      modifies this, schedule
      ensures Valid() && schedule == old(schedule)
      ensures status == old(Now()).WaitStatus(input) && Now() == old(Now()).Waited(input)
      ensures status == Running ==> Rested()
    {
      hide Logged, Ahead, Elections, Planned, Dates, StartLate;
      hide TimeFrame.EpochTime, TimeFrame.SlotTime, TimeFrame.FromEra;
      if schedule == null {
        return NoSchedule;
      }
      var next := schedule.Peek();
      now := now + input.waitDelay;
      match next {
        case None =>
          var epochTime := tf.EpochTime(schedule.epoch + 1);
          if epochTime < now {
            return NextEpochInThePast;
          }
          now := epochTime + input.wakeDelay;
        case Some(event) =>
          var slotTime := tf.SlotTime(tf.FromEra(event.date));
          if now < slotTime {
            now := slotTime + input.wakeDelay;
          }
      }
      tip := input.tip;
      status := Running;
    }

    lemma RanIsActed(before: Task, input: Input, status: Status)
      requires tf.Valid() && before.Busy() && Ran(before.left[0], input, before.ReadAt(input), before.built, status)
      requires Now() == before.(now := now, left := before.left[1..], acted := before.acted + [before.left[0].date],
                                built := built)
      ensures status == before.ActStatus(input) && Now() == before.Acted(input)
    {
      hide InItsSlot, TimeFrame.SlotTime, TimeFrame.SlotAt, TimeFrame.ToEra, TimeFrame.FromEra, TimeFrame.NthFuture;
    }

    lemma ScheduledIsActed(before: Task, input: Input, status: Status, was: Schedule?)
      requires tf.Valid() && !before.Busy() && before.left == [] && now == before.ReadAt(input)
      requires Scheduled(input, was, before.plans, status)
      requires schedule == was ==> Now().epoch == before.epoch && Now().left == []
      requires Now() == before.(now := now, epoch := Now().epoch, left := Now().left, plans := plans)
      ensures status == before.ActStatus(input) && Now() == before.Acted(input)
    {
      hide TimeFrame.SlotTime, TimeFrame.SlotAt, TimeFrame.ToEra, TimeFrame.FromEra, Elections;
    }

    /** The action of a step, told from the state before it. */
    method Act(input: Input) returns (status: Status)
      requires Valid() && Rested()
      modifies this, schedule
      ensures Valid() && (schedule != old(schedule) ==> fresh(schedule))
      ensures status == old(Now()).ActStatus(input) && Now() == old(Now()).Acted(input)
    {
      hide Logged, Ahead, Planned, StartLate, Dates, Ran, Scheduled, Task.Rested, Task.ActStatus, Task.Acted;
      ghost var before := Now();
      ghost var was := schedule;
      status := Action(input);
      if before.Busy() {
        RanIsActed(before, input, status);
      } else {
        ScheduledIsActed(before, input, status, was);
      }
    }

    /** One action and one wait: exactly when the task stops, and why. */
    method Step(input: Input) returns (status: Status)
      requires Valid() && Rested() && input.tip.leadership == input.tip.header.date.epoch
      modifies this, schedule
      ensures Valid() && Now().tf == tf && Now().Explains(status) && (status == Running ==> Rested())
      ensures schedule != old(schedule) ==> fresh(schedule)
      ensures status == old(Now()).StepStatus(input) && Now() == old(Now()).Stepped(input)
      ensures status == TooEarly <==> old(schedule) == null && old(Now()).ReadAt(input) < tf.start
      ensures status == NoSchedule <==> old(schedule) == null && old(Now()).TipIsAhead(input)
      ensures status == DeadlineMissed <==> old(Now()).Misses(input)
      ensures status == BuildFailed <==> old(Now()).Tries(input) && input.build == LedgerError
      ensures status == NextEpochInThePast <==> old(Now()).Overruns(input)
    {
      StatusIff(Now(), input);
      StepExplained(Now(), input);
      hide Logged, Ahead, Elections, InItsSlot, Planned, StartLate;
      hide TimeFrame.EpochTime, TimeFrame.SlotTime, TimeFrame.SlotAt, TimeFrame.ToEra, TimeFrame.FromEra,
           TimeFrame.NthFuture;
      hide Task.ActStatus, Task.Acted, Task.WaitStatus, Task.Waited, Task.Misses, Task.Tries, Task.Overruns;
      status := Act(input);
      if status == Running {
        status := Wait(input);
      }
    }

    /** The steps up to the first one that stops the task. */
    method RunSteps(inputs: seq<Input>) returns (status: Status, n: nat)
      requires Valid() && Rested()
      requires forall i :: 0 <= i < |inputs| ==> inputs[i].tip.leadership == inputs[i].tip.header.date.epoch
      modifies this, schedule
      ensures Valid() && Now().tf == tf && Now().Explains(status)
      ensures forall k :: 0 <= k < n <= |inputs| ==>
                AfterSteps(old(Now()), inputs[..k]).StepStatus(inputs[k]) == Running
      ensures if status == Running then n == |inputs| && Now() == AfterSteps(old(Now()), inputs)
              else
                && n < |inputs| && status == AfterSteps(old(Now()), inputs[..n]).StepStatus(inputs[n])
                && Now() == AfterSteps(old(Now()), inputs[..n + 1])
      ensures status == BuildFailed ==> inputs[n].build == LedgerError
    {
      hide Ahead, Elections, InItsSlot, Task.Explains, StartLate, Planned, Logged, Rested, Now;
      hide Task.Stepped, Task.StepStatus, Task.Misses, Task.Tries, Task.Overruns, Task.TipIsAhead, AfterSteps, Dates;
      ghost var start := Now();
      SameFrame();
      NoSteps(start, inputs);
      status, n := Running, 0;
      while n < |inputs|
        invariant 0 <= n <= |inputs| && status == Running
        invariant Valid() && Rested() && start.tf == tf && Now() == AfterSteps(start, inputs[..n])
        invariant schedule != old(schedule) ==> schedule == null || fresh(schedule)
        invariant forall k :: 0 <= k < n ==> AfterSteps(start, inputs[..k]).StepStatus(inputs[k]) == Running
      {
        NextStep(start, inputs, n);
        SameFrame();
        status := Step(inputs[n]);
        if status != Running {
          return;
        }
        n := n + 1;
      }
      assert inputs[..|inputs|] == inputs;
      StillRunning();
    }

    /** Any number of steps, until the task stops in step `n`. The dates acted on are the elected ones of all
        the plans, in order and without a gap, up to those still scheduled; none is the first of its epoch. */
    method Run(inputs: seq<Input>) returns (status: Status, n: nat)
      requires Valid() && Rested()
      requires forall i :: 0 <= i < |inputs| ==> inputs[i].tip.leadership == inputs[i].tip.header.date.epoch
      modifies this, schedule
      ensures Valid() && Now().tf == tf && Now().Explains(status)
      ensures forall k :: 0 <= k < n <= |inputs| ==>
                AfterSteps(old(Now()), inputs[..k]).StepStatus(inputs[k]) == Running
      ensures if status == Running then n == |inputs| && Now() == AfterSteps(old(Now()), inputs)
              else
                && n < |inputs| && status == AfterSteps(old(Now()), inputs[..n]).StepStatus(inputs[n])
                && Now() == AfterSteps(old(Now()), inputs[..n + 1])
      ensures status == BuildFailed ==> inputs[n].build == LedgerError
      ensures Increasing(acted) && old(acted) <= acted && old(built) <= built && old(plans) <= plans && now >= old(now)
      ensures var done := inputs[..if status == Running then n else n + 1];
              FromSteps(plans[|old(plans)|..], Used(old(Now()), done), inputs)
      ensures Planned(plans, tf.slotsPerEpoch) == acted + if schedule == null then [] else Dates(schedule.Remaining())
      ensures forall d :: d in acted ==> d.slot > 0
      ensures forall i, j :: 0 <= i < j < |built| ==> built[i].date.Before(built[j].date)
      ensures forall i :: 0 <= i < |built| ==> InItsSlot(tf, built[i])
    {
      hide Ahead, InItsSlot, Task.Explains, StartLate, Planned, Logged, Increasing, Rested, Now, Task.StepStatus;
      hide AfterSteps, FromSteps, Used, Dates;
      ghost var start := Now();
      SameFrame();
      SameNow();
      status, n := RunSteps(inputs);
      SameNow();
      assert inputs[..|inputs|] == inputs;
      StepsExtend(start, inputs[..if status == Running then n else n + 1], inputs);
      NothingPlanned(plans, tf.slotsPerEpoch);
      PlannedIsLate(plans, tf.slotsPerEpoch, acted, if schedule == null then [] else Dates(schedule.Remaining()));
      LoggedFacts(tf, acted, built);
    }

    lemma SameNow()
      ensures Now().acted == acted && Now().built == built && Now().plans == plans && Now().now == now
    {
    }

    lemma SameFrame()
      ensures Now().tf == tf
    {
    }

    lemma StillRunning()
      requires tf.Valid() && Rested()
      ensures Now().tf == tf && Now().Explains(Running)
    {
    }
  }

  lemma NothingPlanned(plans: seq<Plan>, slots: nat)
    ensures plans == [] ==> Planned(plans, slots) == []
  {
  }

  /** The plans come from the elections of the steps at the given positions. */
  ghost predicate FromSteps(plans: seq<Plan>, used: seq<nat>, inputs: seq<Input>) {
    && |used| == |plans|
    && (forall i :: 0 <= i < |used| ==> used[i] < |inputs| && plans[i].elected == inputs[used[i]].elected)
    && (forall i, j :: 0 <= i < j < |used| ==> used[i] < used[j])
  }

  /** The steps at which a schedule is made. */
  ghost function Used(task: Task, inputs: seq<Input>): seq<nat>
    requires task.tf.Valid()
  {
    if inputs == [] then []
    else
      var n := |inputs| - 1;
      var before := AfterSteps(task, inputs[..n]);
      Used(task, inputs[..n]) + if before.Schedules(inputs[n]) && before.hasLeader then [n] else []
  }

  /** A step adds to what was acted on, built and planned, and the clock does not run backwards. */
  lemma StepExtends(task: Task, input: Input)
    requires task.tf.Valid()
    ensures var next := task.Stepped(input);
            && task.acted <= next.acted && task.built <= next.built && task.now <= next.now
            && next.plans == task.plans + if task.Schedules(input) && task.hasLeader then [task.NewPlan(input)] else []
  {
    hide TimeFrame.EpochTime, TimeFrame.SlotTime, TimeFrame.SlotAt, TimeFrame.ToEra, TimeFrame.FromEra,
         TimeFrame.NthFuture, Elections;
  }

  lemma {:induction false} StepsExtend(task: Task, done: seq<Input>, inputs: seq<Input>)
    requires task.tf.Valid() && done <= inputs
    ensures var r := AfterSteps(task, done);
            && task.acted <= r.acted && task.built <= r.built && task.plans <= r.plans && task.now <= r.now
            && FromSteps(r.plans[|task.plans|..], Used(task, done), inputs)
            && forall k :: k in Used(task, done) ==> k < |done|
    decreases |done|
  {
    hide Task.Stepped, Task.Schedules, Task.NewPlan;
    if done != [] {
      var n := |done| - 1;
      var before := AfterSteps(task, done[..n]);
      StepsExtend(task, done[..n], inputs);
      StepExtends(before, done[n]);
      if before.Schedules(done[n]) && before.hasLeader {
        PlanIsFromStep(before, done[n]);
        MorePlans(before.plans[|task.plans|..], Used(task, done[..n]), inputs, before.NewPlan(done[n]), n);
        assert (before.plans + [before.NewPlan(done[n])])[|task.plans|..] ==
               before.plans[|task.plans|..] + [before.NewPlan(done[n])];
      }
    }
  }

  lemma PlanIsFromStep(task: Task, input: Input)
    requires task.tf.Valid() && task.Schedules(input)
    ensures task.tf.start <= task.ReadAt(input) && task.NewPlan(input).elected == input.elected
  {
  }

  lemma MorePlans(plans: seq<Plan>, used: seq<nat>, inputs: seq<Input>, p: Plan, n: nat)
    requires FromSteps(plans, used, inputs) && n < |inputs| && p.elected == inputs[n].elected
    requires forall k :: k in used ==> k < n
    ensures FromSteps(plans + [p], used + [n], inputs)
  {
    assert forall j :: 0 <= j < |used| ==> used[j] in used;
  }

  lemma NoSteps(task: Task, inputs: seq<Input>)
    requires task.tf.Valid()
    ensures AfterSteps(task, inputs[..0]) == task
  {
  }

  lemma NextStep(task: Task, inputs: seq<Input>, n: nat)
    requires task.tf.Valid() && n < |inputs|
    ensures AfterSteps(task, inputs[..n + 1]) == AfterSteps(task, inputs[..n]).Stepped(inputs[n])
  {
    hide Task.Stepped;
    assert inputs[..n + 1][..n] == inputs[..n];
  }

  /** A tip in the given epoch. */
  function TipIn(epoch: nat): Ref {
    Ref(Header(epoch, 0, epoch, BlockDate(epoch, 0)), epoch, None)
  }

  /** A step at which the clock runs on by `delay`, with nobody elected, and a tip of the given epoch after it. */
  function Quiet(delay: nat, epoch: nat): Input {
    Input(delay, 0, 0, 0, slot => None, NotSigned, TipIn(epoch))
  }

  /** Two-slot epochs, the tip far ahead of the clock: there is never a schedule to wait for. */
  method StopsWithoutSchedule() returns (status: Status)
    ensures status == NoSchedule
  {
    var m := new Module(TimeFrame(0, 1, 2), true, 1, TipIn(5), 0);
    status := m.Step(Quiet(0, 5));
  }

  /** One quiet epoch, during which the tip gets ahead of the clock. */
  method QuietEpoch() returns (m: Module)
    ensures m.Valid() && m.Rested() && fresh(m) && m.schedule != null && fresh(m.schedule)
    ensures m.tf == TimeFrame(0, 1, 2) && m.now == 2 && m.tip == TipIn(5) && m.schedule.Remaining() == []
  {
    hide Logged, Ahead, Planned, Elections, InItsSlot, StartLate;
    var tf, input := TimeFrame(0, 1, 2), Quiet(0, 5);
    m := new Module(tf, false, 1, TipIn(0), 0);
    FirstInstant();
    hide TimeFrame.EpochTime, TimeFrame.SlotTime, TimeFrame.SlotAt, TimeFrame.ToEra, TimeFrame.FromEra,
         TimeFrame.NthFuture;
    var _ := m.Step(input);
  }

  lemma FirstInstant()
    ensures var tf := TimeFrame(0, 1, 2); tf.ToEra(tf.SlotAt(0)) == BlockDate(0, 0) && tf.EpochTime(1) == 2
  {
    var tf := TimeFrame(0, 1, 2);
    assert tf.SlotAt(0) == 0;
    assert tf.EpochTime(1) == 2;
    hide TimeFrame.SlotAt, TimeFrame.EpochTime, TimeFrame.SlotTime;
  }

  /** The schedule is not renewed when the epoch ends. */
  method StopsBehindTip() returns (status: Status)
    ensures status == NextEpochInThePast
  {
    hide Logged, Ahead, Planned, Elections, InItsSlot, StartLate;
    var m := QuietEpoch();
    assert m.Now().TipIsAhead(Quiet(1, 5));
    TipAheadStops(m.Now(), Quiet(1, 5));
    hide TimeFrame.EpochTime, TimeFrame.SlotTime, TimeFrame.SlotAt, TimeFrame.ToEra, TimeFrame.FromEra,
         TimeFrame.NthFuture;
    status := m.Step(Quiet(1, 5));
  }

  /** The clock runs past the end of an epoch between two readings. */
  method StopsPastEpoch() returns (status: Status)
    ensures status == NextEpochInThePast
  {
    var m := new Module(TimeFrame(0, 1, 2), false, 1, TipIn(0), 0);
    status := m.Step(Quiet(0, 0).(waitDelay := 3));
  }
}
