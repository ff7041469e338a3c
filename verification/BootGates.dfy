/** The kernel's two one-shot gates towards the loader. */
module BootGates {
  import opened Prelude

  /** What the loader hands to the kernel; all zero for an ordinary boot. */
  datatype Context = Context(address: nat, generation: nat, slot: nat, attempt: nat, flags: nat)

  const NO_CONTEXT := Context(0, 0, 0, 0, 0)
  const UPDATE_STAGEABLE: nat := 1

  predicate IsTrial(c: Context) {
    c.address != 0 && c.generation != 0 && c.slot <= 1 && 1 <= c.attempt <= 3 && c.flags == 0
  }

  predicate IsUpdateStageable(c: Context) {
    c.address != 0 && c.slot <= 1 && c.attempt == 0 && c.flags == UPDATE_STAGEABLE
  }

  datatype ReadyRecord = ReadyRecord(slot: nat, attempt: nat, generation: nat)

  datatype StageRecord = StageRecord(slot: nat, generation: nat)

  // ----- The one-shot policy shared by both gates -----

  datatype GateState = Disabled | Armed | Busy | Written | Failed

  /** A caller's attempt to take the gate: only an armed gate is taken. */
  function Ask(g: GateState): GateState {
    if g == Armed then Busy else g
  }

  function Answer(g: GateState, persisted: bool): GateState {
    if g == Busy then if persisted then Written else Failed else g
  }

  datatype GateEvent = Asked | Answered(persisted: bool)

  /** How many of the interleaved callers are let through to write the record. */
  function Grants(g: GateState, events: seq<GateEvent>): nat
    decreases |events|
  {
    if events == [] then 0
    else match events[0]
      case Asked => (if g == Armed then 1 else 0) + Grants(Ask(g), events[1..])
      case Answered(ok) => Grants(Answer(g, ok), events[1..])
  }

  /** Between two configurations at most one caller writes, whatever the
      interleaving, and none does unless the gate was armed. */
  lemma {:induction false} OneShot(g: GateState, events: seq<GateEvent>)
    ensures Grants(g, events) <= if g == Armed then 1 else 0
    decreases |events|
  {
    if events != [] {
      OneShot(Ask(g), events[1..]);
      if events[0].Answered? {
        OneShot(Answer(g, events[0].persisted), events[1..]);
      }
    }
  }

  // ----- Readiness -----

  datatype ReadyOutcome = NoTrial | Persisted(record: ReadyRecord) | AlreadyPersisted(record: ReadyRecord) | PersistenceFailed(record: ReadyRecord) | InProgress

  /** What has happened to a gate since it was configured: how many callers were let
      through to write, and how the write of that one ended, if it has. */
  predicate History(state: GateState, enabled: bool, grants: nat, answer: Option<bool>) {
    && (state == Disabled <==> !enabled)
    && grants == (if state == Disabled || state == Armed then 0 else 1)
    && answer == (if state == Written then Some(true) else if state == Failed then Some(false) else None)
  }

  class BootReadinessGate {
    var context: Context
    var state: GateState
    ghost var grants: nat
    ghost var answer: Option<bool>

    ghost predicate Valid()
      reads this
    {
      History(state, IsTrial(context), grants, answer)
    }

    constructor ()
      ensures Valid() && !IsTrial(context)
    {
      context, state := NO_CONTEXT, Disabled;
      grants, answer := 0, None;
    }

    function Record(): ReadyRecord
      reads this
    {
      ReadyRecord(context.slot, context.attempt, context.generation)
    }

    /** Only the loader's context decides what will be reported. */
    method Configure(c: Context)
      modifies this
      ensures Valid() && context == c && grants == 0 && answer == None
    {
      context := c;
      state := if IsTrial(c) then Armed else Disabled;
      grants, answer := 0, None;
    }

    /** First half of a report: in a trial the first caller, and no other, is let
        through to write the record; the others learn how that write ended. */
    method BeginReport() returns (granted: Option<ReadyRecord>, outcome: ReadyOutcome)
      requires Valid()
      modifies this`state, this`grants
      ensures Valid() && state == Ask(old(state))
      ensures granted == if IsTrial(context) && old(grants) == 0 then Some(Record()) else None
      ensures grants == old(grants) + (if granted.Some? then 1 else 0) <= 1
      ensures outcome == if !IsTrial(context) then NoTrial
                         else if answer.None? then InProgress
                         else if answer.value then AlreadyPersisted(Record())
                         else PersistenceFailed(Record())
    {
      granted := None;
      if state == Disabled {
        return None, NoTrial;
      }
      var found := state;
      if found == Armed {
        state := Busy;
        grants := grants + 1;
        return Some(Record()), InProgress;
      }
      match found
      case Busy => outcome := InProgress;
      case Written => outcome := AlreadyPersisted(Record());
      case Failed => outcome := PersistenceFailed(Record());
    }

    /** Second half, by the caller that was let through. */
    method EndReport(persisted: bool) returns (outcome: ReadyOutcome)
      requires Valid() && grants == 1 && answer == None
      modifies this`state, this`answer
      ensures Valid() && answer == Some(persisted) && state == Answer(old(state), persisted)
      ensures outcome == if persisted then Persisted(Record()) else PersistenceFailed(Record())
    {
      state := if persisted then Written else Failed;
      answer := Some(persisted);
      outcome := if persisted then Persisted(Record()) else PersistenceFailed(Record());
    }
  }

  // ----- Staging -----

  datatype StageOutcome = Unavailable | StagedNow(record: StageRecord) | AlreadyStaged(record: StageRecord) | StageFailed

  /** The slot that is not the confirmed one. */
  function TargetOf(confirmed: nat): nat {
    if confirmed == 0 then 1 else 0
  }

  class BootStageGate {
    var context: Context
    var state: GateState
    ghost var grants: nat
    ghost var answer: Option<bool>

    ghost predicate Valid()
      reads this
    {
      History(state, IsUpdateStageable(context), grants, answer)
    }

    constructor ()
      ensures Valid() && !IsUpdateStageable(context)
    {
      context, state := NO_CONTEXT, Disabled;
      grants, answer := 0, None;
    }

    method Configure(c: Context)
      modifies this
      ensures Valid() && context == c && grants == 0 && answer == None
    {
      context := c;
      state := if IsUpdateStageable(c) then Armed else Disabled;
      grants, answer := 0, None;
    }

    function TargetSlot(): (r: Option<nat>)
      requires Valid()
      reads this
      ensures r == if IsUpdateStageable(context) then Some(TargetOf(context.slot)) else None
    {
      if state == Disabled then None else Some(TargetOf(context.slot))
    }

    ghost function Request(): StageRecord
      reads this
    {
      StageRecord(TargetOf(context.slot), context.generation)
    }

    /** First half of a request: on a boot that may stage, the first caller, and no
        other, is let through, for the slot that is not in use. */
    method BeginStage() returns (granted: Option<StageRecord>, outcome: StageOutcome)
      requires Valid()
      modifies this`state, this`grants
      ensures Valid() && state == Ask(old(state))
      ensures granted == if IsUpdateStageable(context) && old(grants) == 0 then Some(Request()) else None
      ensures grants == old(grants) + (if granted.Some? then 1 else 0) <= 1
      ensures outcome == if !IsUpdateStageable(context) then Unavailable
                         else if answer == Some(true) then AlreadyStaged(Request())
                         else StageFailed
    {
      var target := TargetSlot();
      if target.None? {
        return None, Unavailable;
      }
      var record := StageRecord(target.value, context.generation);
      granted, outcome := None, StageFailed;
      if state == Armed {
        state := Busy;
        grants := grants + 1;
        granted := Some(record);
      } else if state == Written {
        outcome := AlreadyStaged(record);
      }
    }

    method EndStage(persisted: bool) returns (outcome: StageOutcome)
      requires Valid() && grants == 1 && answer == None
      modifies this`state, this`answer
      ensures Valid() && answer == Some(persisted) && state == Answer(old(state), persisted)
      ensures outcome == if persisted then StagedNow(Request()) else StageFailed
    {
      state := if persisted then Written else Failed;
      answer := Some(persisted);
      outcome := if persisted then StagedNow(StageRecord(TargetOf(context.slot), context.generation)) else StageFailed;
    }
  }
}
