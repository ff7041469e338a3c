/** Where accepted candidates come from: each is asked for by a kernel that ran the
    confirmed slot, for the journal as that kernel found it. */
module BootStaging {
  import opened Prelude
  import opened BootRecord
  import opened Journal
  import opened BootGates
  import opened BootProtocol

  /** The start that allows the request. */
  function StartFor(r: StageRecord): Event {
    ConfirmedStarted(SlotOf(TargetOf(r.slot)), Some(r.generation))
  }

  /** `given` is a request that was in the variable before the history began. */
  predicate Known(log: seq<Event>, given: Option<StageRecord>, r: StageRecord) {
    StageRequested(r) in log || given == Some(r)
  }

  predicate Grounded(before: seq<Event>, given: Option<StageRecord>, e: Event) {
    match e
    case StageRequested(r) => StartFor(r) in before
    case StageAccepted(slot, previous, r) => Known(before, given, r) && slot == SlotOf(r.slot)
    case _ => true
  }

  predicate AllGrounded(log: seq<Event>, given: Option<StageRecord>) {
    forall k :: 0 <= k < |log| ==> Grounded(log[..k], given, log[k])
  }

  predicate Sourced(w: World, given: Option<StageRecord>) {
    && AllGrounded(w.log, given)
    && (w.stage.Holding? ==> Known(w.log, given, w.stage.record))
    && (w.phase.Running? && w.phase.stageGate != Disabled ==> StartFor(StageOf(w.phase.context)) in w.log)
    && (w.phase.Running? && w.phase.stageGate == Busy ==> StageRequested(StageOf(w.phase.context)) in w.log)
  }

  lemma Appended(log: seq<Event>, e: Event, given: Option<StageRecord>)
    requires AllGrounded(log, given) && Grounded(log, given, e)
    ensures AllGrounded(log + [e], given)
    ensures forall x :: x in log ==> x in log + [e]
  {
    hide Grounded;
    var longer := log + [e];
    forall k | 0 <= k < |longer|
      ensures Grounded(longer[..k], given, longer[k])
    {
      assert longer[..k] == log[..k] || k == |log|;
      assert k == |log| ==> longer[..k] == log;
    }
  }

  /** A step adds nothing, or one event that only what came before allows. */
  lemma StepSourced(w: World, a: Action, given: Option<StageRecord>, origin: SystemSlot)
    requires Good(w, origin) && Sourced(w, given)
    ensures Sourced(Step(w, a), given)
  {
    hide AllGrounded;
    match a
    case CheckReady(visible, readable, f, deleted) => ReadySourced(w, visible, readable, f, deleted, given);
    case CheckStage(visible, readable, manifestsOk, baseline, f, deleted) => StageSourced(w, visible, readable, manifestsOk, baseline, f, deleted, given, origin);
    case HandOff(address) => HandOffSourced(w, address, given, origin);
    case _ => OtherSourced(w, a, given);
  }

  lemma ReadySourced(w: World, visible: bool, readable: bool, f: Fate, deleted: bool, given: Option<StageRecord>)
    requires Sourced(w, given)
    ensures Sourced(DoReady(w, visible, readable, f, deleted), given)
  {
    hide AllGrounded;
    hide Load;
    hide MarkBootSuccess;
    if w.phase.Loaded? && w.ready.Holding? {
      Appended(w.log, Confirmed(w.ready.record), given);
      assert w.log + [] == w.log;
    }
  }

  lemma StageSourced(w: World, visible: bool, readable: bool, manifestsOk: bool, baseline: Fate, f: Fate, deleted: bool, given: Option<StageRecord>, origin: SystemSlot)
    requires Good(w, origin) && Sourced(w, given)
    ensures Sourced(DoStage(w, visible, readable, manifestsOk, baseline, f, deleted), given)
  {
    hide AllGrounded;
    hide Load;
    hide StageUpdate;
    hide Sound;
    hide LogOk;
    hide Agrees;
    if w.phase.ReadyChecked? && readable && w.stage.Holding? {
      var record, st := w.stage.record, w.phase.state;
      var accepted := AcceptStage(Some(record), st, manifestsOk);
      if accepted.Some? {
        StageMoves(w.store, accepted.value, baseline, f);
        Appended(w.log, StageAccepted(SlotOf(record.slot), st.confirmed, record), given);
        assert w.log + [] == w.log;
      }
    }
  }

  lemma HandOffSourced(w: World, address: nat, given: Option<StageRecord>, origin: SystemSlot)
    requires Good(w, origin) && Sourced(w, given)
    ensures Sourced(DoHandOff(w, address), given)
  {
    hide AllGrounded;
    hide Load;
    hide Sound;
    hide LogOk;
    hide Agrees;
    hide Starts;
    if w.phase.Decided? && Load(w.store).Ok? {
      var d, st := w.phase.decision, Load(w.store).value;
      Appended(w.log, ConfirmedStarted(d.slot, Stageable(Context(address, st.generation, st.confirmed.Code(), 0, UPDATE_STAGEABLE))), given);
      Appended(w.log, TrialStarted(ReadyRecord(d.slot.Code(), d.trialAttempt, st.generation)), given);
      var e := ConfirmedStarted(d.slot, Stageable(Context(address, st.generation, st.confirmed.Code(), 0, UPDATE_STAGEABLE)));
      assert e in w.log + [e];
    }
  }

  lemma OtherSourced(w: World, a: Action, given: Option<StageRecord>)
    requires Sourced(w, given) && !a.CheckReady? && !a.CheckStage? && !a.HandOff?
    ensures Sourced(Step(w, a), given)
  {
    hide AllGrounded;
    hide Load;
    hide BeginBoot;
    match a
    case Choose(selection) =>
      if w.phase.StageChecked? {
        Appended(w.log, ConfirmedStarted(w.phase.state.confirmed, None), given);
      }
    case Begin(f) =>
      if w.phase == Choosing && BeginBoot(w.store, f).1.Ok? {
        Appended(w.log, RolledBack(BeginBoot(w.store, f).1.value.slot), given);
      }
    case AskReady =>
      if w.phase.Running? {
        Appended(w.log, ReadyReported(ReadyOf(w.phase.context)), given);
      }
    case AskStage =>
      if w.phase.Running? && w.phase.stageGate == Armed {
        var e := StageRequested(StageOf(w.phase.context));
        Appended(w.log, e, given);
        assert e in w.log + [e];
      }
    case _ =>
  }

  lemma {:induction false} RunSourced(w: World, actions: seq<Action>, given: Option<StageRecord>, origin: SystemSlot)
    requires Good(w, origin) && Sourced(w, given)
    ensures Sourced(Run(w, actions), given)
    decreases |actions|
  {
    hide Good;
    hide Sourced;
    hide Step;
    if actions != [] {
      StepGood(w, actions[0], origin);
      StepSourced(w, actions[0], given, origin);
      RunSourced(Step(w, actions[0]), actions[1..], given, origin);
    }
  }

  /** What the stage variable holds when the machine is first looked at. */
  function Outset(w: World): Option<StageRecord> {
    if w.stage.Holding? then Some(w.stage.record) else None
  }

  /** In every run a candidate is accepted only on a request that names it, made earlier
      by a kernel started from the other slot at that very generation; the one exception
      is a request found in the variable at the outset. */
  lemma AcceptedByOwnRequest(w: World, actions: seq<Action>, origin: SystemSlot, k: nat)
    requires Fresh(w, origin) && k < |Run(w, actions).log| && Run(w, actions).log[k].StageAccepted?
    ensures var log := Run(w, actions).log;
            var r := log[k].request;
            && log[k].slot == SlotOf(r.slot) && log[k].slot != log[k].previous
            && (Outset(w) == Some(r)
                || exists i, j :: 0 <= i < j < k && log[i] == ConfirmedStarted(SlotOf(TargetOf(r.slot)), Some(r.generation)) && log[j] == StageRequested(r))
  {
    EveryRun(w, actions, origin);
    RunSourced(w, actions, Outset(w), origin);
    var log := Run(w, actions).log;
    var r := log[k].request;
    assert Justified(log[..k], log[k], origin);
    assert Grounded(log[..k], Outset(w), log[k]);
    if Outset(w) != Some(r) {
      var j :| 0 <= j < |log[..k]| && log[..k][j] == StageRequested(r);
      assert Grounded(log[..j], Outset(w), log[j]);
      var i :| 0 <= i < |log[..j]| && log[..j][i] == StartFor(r);
      assert log[i] == StartFor(r) && log[j] == StageRequested(r);
    }
  }

  /** A candidate appears in one way only: the stage check honours a record for the
      journal's own generation. */
  lemma OnlyRequestsStage(w: World, a: Action, origin: SystemSlot)
    requires Good(w, origin) && Load(w.store).Ok? && Load(Step(w, a).store).Ok?
    requires Load(w.store).value.pending.None? && Load(Step(w, a).store).value.pending.Some?
    ensures a.CheckStage? && w.stage.Holding? && w.stage.record.generation == Load(w.store).value.generation
    ensures Load(Step(w, a).store).value.pending == Some(SlotOf(w.stage.record.slot))
    ensures Step(w, a).log == w.log + [StageAccepted(SlotOf(w.stage.record.slot), Load(w.store).value.confirmed, w.stage.record)]
  {
    hide Sound;
    hide Load;
    hide LogOk;
    hide Agrees;
    hide MarkBootSuccess;
    hide StageUpdate;
    hide BeginBoot;
    match a
    case CheckStage(_, readable, manifestsOk, baseline, f, _) =>
      if w.phase.ReadyChecked? && readable && w.stage.Holding? {
        var accepted := AcceptStage(Some(w.stage.record), w.phase.state, manifestsOk);
        if accepted.Some? {
          StageMoves(w.store, accepted.value, baseline, f);
        }
      }
    case Begin(f) => BeginMoves(w.store, f);
    case _ =>
  }

  /** Honouring a stage record makes it stale at once: no later run honours it again. */
  lemma StagedOnce(w: World, a: Action, later: seq<Action>, origin: SystemSlot, manifestsOk: bool)
    requires Good(w, origin) && Load(w.store).Ok? && Load(Step(w, a).store).Ok?
    requires Load(w.store).value.pending.None? && Load(Step(w, a).store).value.pending.Some?
    ensures w.stage.Holding?
    ensures var s := Run(Step(w, a), later).store;
            Load(s).Ok? ==> AcceptStage(Some(w.stage.record), Load(s).value, manifestsOk).None?
  {
    hide Load;
    hide Step;
    OnlyRequestsStage(w, a, origin);
    StepGeneration(w, a, origin);
    StepGood(w, a, origin);
    StaleForever(Step(w, a), later, origin, w.stage.record.generation);
  }
}
