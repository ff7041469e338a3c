/** Loader boots, kernel reports and power losses as one step protocol over the
    journal and two firmware variables. */
module BootProtocol {
  import opened Prelude
  import opened BootRecord
  import opened Journal
  import opened BootGates

  // ----- World -----

  datatype Variable<T> = Absent | Junk | Holding(record: T)

  /** How a variable write by the kernel ends; only `Stored` is reported as success. */
  datatype VariableFate = Stored | LeftAlone | StoredLate | Garbled

  datatype Phase =
    | Off
    | Loaded(state: BootState)
    | ReadyChecked(state: BootState)
    | StageChecked(state: BootState)
    | Choosing
    | Decided(decision: BootDecision)
    | Running(context: Context, readyGate: GateState, stageGate: GateState)

  /** What happened so far, oldest first. */
  datatype Event =
    | StageAccepted(slot: SystemSlot, previous: SystemSlot, request: StageRecord)
    | TrialStarted(trial: ReadyRecord)
    | ConfirmedStarted(slot: SystemSlot, stageable: Option<nat>)
    | StageRequested(request: StageRecord)
    | ReadyReported(trial: ReadyRecord)
    | Confirmed(trial: ReadyRecord)
    | RolledBack(slot: SystemSlot)

  datatype World = World(store: Store, ready: Variable<ReadyRecord>, stage: Variable<StageRecord>, phase: Phase, log: seq<Event>)

  datatype Selection = Automatic | Recovery | Pick(slot: SystemSlot)

  /** One protocol step with everything the environment decides in it. */
  datatype Action =
    | PowerLoss
    | LoadJournal
    | CheckReady(visible: bool, readable: bool, f: Fate, deleted: bool)
    | CheckStage(visible: bool, readable: bool, manifestsOk: bool, baseline: Fate, f: Fate, deleted: bool)
    | Choose(selection: Selection)
    | Begin(f: Fate)
    | HandOff(address: nat)
    | AskReady
    | AnswerReady(fate: VariableFate)
    | AskStage
    | AnswerStage(fate: VariableFate)

  // ----- Loader -----

  function SlotOf(code: nat): SystemSlot {
    if code == 0 then A else B
  }

  /** A readiness record counts only for the trial that is pending right now. */
  predicate Matches(r: ReadyRecord, st: BootState) {
    st.pending.Some? && r.slot == st.pending.value.Code() && r.attempt == st.attempts && r.generation == st.generation
  }

  function AcceptStage(record: Option<StageRecord>, st: BootState, manifestsOk: bool): Option<SystemSlot> {
    if record.None? then None
    else
      var slot := SlotOf(record.value.slot);
      if st.pending.Some? || record.value.generation != st.generation || slot == st.confirmed || !manifestsOk then None else Some(slot)
  }

  function Stopped(w: World): World {
    w.(phase := Off)
  }

  function DoLoad(w: World): World {
    if w.phase != Off then w
    else match Load(w.store)
      case Err(_) => w
      case Ok(st) => w.(phase := Loaded(st))
  }

  function ConfirmedEvents(s: Store, s': Store, trial: ReadyRecord): seq<Event> {
    if Load(s).Ok? && Load(s').Ok? && Load(s').value.confirmed != Load(s).value.confirmed then [Confirmed(trial)] else []
  }

  function Promote(w: World, record: ReadyRecord, f: Fate, after: Variable<ReadyRecord>): World {
    var (s', r) := MarkBootSuccess(w.store, SlotOf(record.slot), f);
    var w' := w.(store := s', log := w.log + ConfirmedEvents(w.store, s', record));
    if r.Err? || Load(s').Err? then Stopped(w') else w'.(ready := after, phase := ReadyChecked(Load(s').value))
  }

  function DoReady(w: World, visible: bool, readable: bool, f: Fate, deleted: bool): World {
    if !w.phase.Loaded? then w
    else
      var st := w.phase.state;
      if !visible || w.ready.Absent? then w.(phase := ReadyChecked(st))
      else
        var after := if deleted then Absent else w.ready;
        if readable && w.ready.Holding? && Matches(w.ready.record, st) then
          Promote(w, w.ready.record, f, after)
        else w.(ready := after, phase := ReadyChecked(st))
  }

  function StagedEvents(s: Store, s': Store, request: StageRecord): seq<Event> {
    if Load(s).Ok? && Load(s').Ok? && Load(s).value.pending.None? && Load(s').value.pending.Some?
    then [StageAccepted(Load(s').value.pending.value, Load(s').value.confirmed, request)] else []
  }

  function DoStage(w: World, visible: bool, readable: bool, manifestsOk: bool, baseline: Fate, f: Fate, deleted: bool): World {
    if !w.phase.ReadyChecked? then w
    else
      var st := w.phase.state;
      if !visible || w.stage.Absent? then w.(phase := StageChecked(st))
      else
        var record := if readable && w.stage.Holding? then Some(w.stage.record) else None;
        var w1 := w.(stage := if deleted then Absent else w.stage);
        match AcceptStage(record, st, manifestsOk)
        case None => w1.(phase := StageChecked(st))
        case Some(slot) =>
          var (s', r) := StageUpdate(w.store, slot, baseline, f);
          var w2 := w1.(store := s', log := w.log + StagedEvents(w.store, s', record.value));
          if r.Err? || Load(s').Err? then Stopped(w2) else w2.(phase := StageChecked(Load(s').value))
  }

  function Boot(c: Context): Phase {
    Running(c, if IsTrial(c) then Armed else Disabled, if IsUpdateStageable(c) then Armed else Disabled)
  }

  /** The generation for which the started kernel may ask for an update, if it may. */
  function Stageable(c: Context): Option<nat> {
    if IsUpdateStageable(c) then Some(c.generation) else None
  }

  function DoChoose(w: World, selection: Selection): World {
    if !w.phase.StageChecked? then w
    else if selection == Recovery then w.(phase := Boot(NO_CONTEXT))
    else if selection == Pick(w.phase.state.confirmed) then
      w.(phase := Boot(NO_CONTEXT), log := w.log + [ConfirmedStarted(w.phase.state.confirmed, None)])
    else w.(phase := Choosing)
  }

  function DoBegin(w: World, f: Fate): World {
    if w.phase != Choosing then w
    else
      var (s', r) := BeginBoot(w.store, f);
      var w' := w.(store := s');
      if r.Err? then Stopped(w')
      else w'.(phase := Decided(r.value), log := if r.value.rolledBack then w.log + [RolledBack(r.value.slot)] else w.log)
  }

  function DoHandOff(w: World, address: nat): World {
    if !w.phase.Decided? then w
    else if Load(w.store).Err? then Stopped(w)
    else
      var d, st := w.phase.decision, Load(w.store).value;
      if d.trialAttempt == 0 then
        var context := if st.pending.None? then Context(address, st.generation, st.confirmed.Code(), 0, UPDATE_STAGEABLE) else NO_CONTEXT;
        w.(phase := Boot(context), log := w.log + [ConfirmedStarted(d.slot, Stageable(context))])
      else if st.pending != Some(d.slot) || st.attempts != d.trialAttempt then Stopped(w)
      else w.(phase := Boot(Context(address, st.generation, d.slot.Code(), d.trialAttempt, 0)),
              log := w.log + [TrialStarted(ReadyRecord(d.slot.Code(), d.trialAttempt, st.generation))])
  }

  // ----- Kernel -----

  function ReadyOf(c: Context): ReadyRecord {
    ReadyRecord(c.slot, c.attempt, c.generation)
  }

  function StageOf(c: Context): StageRecord {
    StageRecord(TargetOf(c.slot), c.generation)
  }

  function Rewritten<T>(v: Variable<T>, record: T, fate: VariableFate): Variable<T> {
    match fate
    case Stored => Holding(record)
    case StoredLate => Holding(record)
    case LeftAlone => v
    case Garbled => Junk
  }

  function DoAskReady(w: World): World {
    if !w.phase.Running? then w
    else w.(phase := w.phase.(readyGate := Ask(w.phase.readyGate)),
            log := if w.phase.readyGate == Armed then w.log + [ReadyReported(ReadyOf(w.phase.context))] else w.log)
  }

  function DoAnswerReady(w: World, fate: VariableFate): World {
    if !w.phase.Running? || w.phase.readyGate != Busy then w
    else w.(phase := w.phase.(readyGate := Answer(w.phase.readyGate, fate == Stored)),
            ready := Rewritten(w.ready, ReadyOf(w.phase.context), fate))
  }

  function DoAskStage(w: World): World {
    if !w.phase.Running? then w
    else w.(phase := w.phase.(stageGate := Ask(w.phase.stageGate)),
            log := if w.phase.stageGate == Armed then w.log + [StageRequested(StageOf(w.phase.context))] else w.log)
  }

  function DoAnswerStage(w: World, fate: VariableFate): World {
    if !w.phase.Running? || w.phase.stageGate != Busy then w
    else w.(phase := w.phase.(stageGate := Answer(w.phase.stageGate, fate == Stored)),
            stage := Rewritten(w.stage, StageOf(w.phase.context), fate))
  }

  function Step(w: World, a: Action): World {
    match a
    case PowerLoss => Stopped(w)
    case LoadJournal => DoLoad(w)
    case CheckReady(visible, readable, f, deleted) => DoReady(w, visible, readable, f, deleted)
    case CheckStage(visible, readable, manifestsOk, baseline, f, deleted) => DoStage(w, visible, readable, manifestsOk, baseline, f, deleted)
    case Choose(selection) => DoChoose(w, selection)
    case Begin(f) => DoBegin(w, f)
    case HandOff(address) => DoHandOff(w, address)
    case AskReady => DoAskReady(w)
    case AnswerReady(fate) => DoAnswerReady(w, fate)
    case AskStage => DoAskStage(w)
    case AnswerStage(fate) => DoAnswerStage(w, fate)
  }

  function Run(w: World, actions: seq<Action>): World
    decreases |actions|
  {
    if actions == [] then w else Run(Step(w, actions[0]), actions[1..])
  }

  // ----- What the history must satisfy -----

  /** The candidate last accepted and the slot confirmed at that time. */
  function LastStaged(log: seq<Event>): Option<(SystemSlot, SystemSlot)> {
    if log == [] then None
    else
      var e := log[|log| - 1];
      if e.StageAccepted? then Some((e.slot, e.previous)) else LastStaged(log[..|log| - 1])
  }

  /** Trial starts since the last candidate was accepted. */
  function Starts(log: seq<Event>): nat {
    if log == [] then 0
    else
      var e := log[|log| - 1];
      if e.StageAccepted? then 0 else (if e.TrialStarted? then 1 else 0) + Starts(log[..|log| - 1])
  }

  function LastConfirmed(log: seq<Event>, origin: SystemSlot): SystemSlot {
    if log == [] then origin
    else
      var e := log[|log| - 1];
      if e.Confirmed? then SlotOf(e.trial.slot) else LastConfirmed(log[..|log| - 1], origin)
  }

  /** When each event may happen, given the history before it. */
  predicate Justified(before: seq<Event>, e: Event, origin: SystemSlot) {
    match e
    case StageAccepted(slot, previous, _) => previous == LastConfirmed(before, origin) && slot != previous
    case TrialStarted(t) =>
      && LastStaged(before).Some? && t.slot == LastStaged(before).value.0.Code()
      && 1 <= t.attempt <= MAX_BOOT_ATTEMPTS && Starts(before) < t.attempt
    case StageRequested(_) => true
    case ConfirmedStarted(slot, _) => slot == LastConfirmed(before, origin)
    case ReadyReported(t) => TrialStarted(t) in before
    case Confirmed(t) => ReadyReported(t) in before && LastStaged(before).Some? && t.slot == LastStaged(before).value.0.Code()
    case RolledBack(slot) => LastStaged(before).Some? && slot == LastStaged(before).value.1 == LastConfirmed(before, origin)
  }

  predicate LogOk(log: seq<Event>, origin: SystemSlot) {
    forall k :: 0 <= k < |log| ==> Justified(log[..k], log[k], origin)
  }

  lemma LogGrows(log: seq<Event>, e: Event, origin: SystemSlot)
    requires LogOk(log, origin) && Justified(log, e, origin)
    ensures LogOk(log + [e], origin)
    ensures LastStaged(log + [e]) == if e.StageAccepted? then Some((e.slot, e.previous)) else LastStaged(log)
    ensures Starts(log + [e]) == if e.StageAccepted? then 0 else Starts(log) + if e.TrialStarted? then 1 else 0
    ensures LastConfirmed(log + [e], origin) == if e.Confirmed? then SlotOf(e.trial.slot) else LastConfirmed(log, origin)
  {
    hide Justified;
    var longer := log + [e];
    assert longer[..|longer| - 1] == log;
    forall k | 0 <= k < |longer|
      ensures Justified(longer[..k], longer[k], origin)
    {
      assert longer[..k] == log[..k] || k == |log|;
    }
  }

  // ----- Invariant -----

  /** The journal and the history agree. */
  predicate Agrees(s: Store, log: seq<Event>, origin: SystemSlot) {
    Load(s).Ok? ==>
      var st := Load(s).value;
      && st.confirmed == LastConfirmed(log, origin)
      && (st.pending.Some? ==> LastStaged(log) == Some((st.pending.value, st.confirmed)) && Starts(log) <= st.attempts)
  }

  predicate PhaseOk(w: World, origin: SystemSlot) {
    match w.phase
    case Off => true
    case Loaded(st) => Load(w.store) == Ok(st)
    case ReadyChecked(st) => Load(w.store) == Ok(st)
    case StageChecked(st) => Load(w.store) == Ok(st)
    case Choosing => Load(w.store).Ok?
    case Decided(d) =>
      && Load(w.store).Ok?
      && var st := Load(w.store).value;
         if d.trialAttempt == 0 then st.pending.None? && d.slot == st.confirmed
         else st.pending == Some(d.slot) && st.attempts == d.trialAttempt && Starts(w.log) < d.trialAttempt
    case Running(c, readyGate, _) =>
      && (readyGate != Disabled ==> TrialStarted(ReadyOf(c)) in w.log)
      && (readyGate == Busy ==> ReadyReported(ReadyOf(c)) in w.log)
  }

  predicate Good(w: World, origin: SystemSlot) {
    && Sound(w.store) && LogOk(w.log, origin) && Agrees(w.store, w.log, origin) && PhaseOk(w, origin)
    && (w.ready.Holding? ==> ReadyReported(w.ready.record) in w.log)
  }

  /** Where a machine starts: nothing pending, no readiness record, switched off. */
  predicate Fresh(w: World, origin: SystemSlot) {
    && Sound(w.store) && w.phase == Off && w.log == [] && !w.ready.Holding?
    && (Load(w.store).Ok? ==> Load(w.store).value.pending.None? && Load(w.store).value.confirmed == origin)
  }

  lemma PromoteGood(w: World, record: ReadyRecord, f: Fate, after: Variable<ReadyRecord>, origin: SystemSlot)
    requires Good(w, origin) && Load(w.store).Ok? && Matches(record, Load(w.store).value)
    requires ReadyReported(record) in w.log && (after.Holding? ==> after == w.ready)
    ensures Good(Promote(w, record, f, after), origin)
  {
    hide Sound;
    hide MarkBootSuccess;
    hide Load;
    hide LogOk;
    hide LastStaged;
    hide Starts;
    hide LastConfirmed;
    MarkMoves(w.store, SlotOf(record.slot), f);
    LoadedValid(w.store);
    LogGrows(w.log, Confirmed(record), origin);
    assert w.log + [] == w.log;
    var w' := Promote(w, record, f, after);
    assert Agrees(w'.store, w'.log, origin);
  }

  lemma ReadyGood(w: World, visible: bool, readable: bool, f: Fate, deleted: bool, origin: SystemSlot)
    requires Good(w, origin)
    ensures Good(DoReady(w, visible, readable, f, deleted), origin)
  {
    hide Sound;
    hide Load;
    hide LogOk;
    hide Promote;
    hide Agrees;
    if w.phase.Loaded? && w.ready.Holding? && Matches(w.ready.record, w.phase.state) {
      PromoteGood(w, w.ready.record, f, if deleted then Absent else w.ready, origin);
    }
  }

  lemma StageGood(w: World, visible: bool, readable: bool, manifestsOk: bool, baseline: Fate, f: Fate, deleted: bool, origin: SystemSlot)
    requires Good(w, origin)
    ensures Good(DoStage(w, visible, readable, manifestsOk, baseline, f, deleted), origin)
  {
    hide Sound;
    hide StageUpdate;
    hide Load;
    hide LogOk;
    hide LastStaged;
    hide Starts;
    hide LastConfirmed;
    if w.phase.ReadyChecked? && visible && readable && w.stage.Holding? {
      var st := w.phase.state;
      var accepted := AcceptStage(Some(w.stage.record), st, manifestsOk);
      if accepted.Some? {
        StageMoves(w.store, accepted.value, baseline, f);
        LogGrows(w.log, StageAccepted(accepted.value, st.confirmed, w.stage.record), origin);
        assert w.log + [] == w.log;
      }
    }
  }

  lemma BeginGood(w: World, f: Fate, origin: SystemSlot)
    requires Good(w, origin)
    ensures Good(DoBegin(w, f), origin)
  {
    hide Sound;
    hide BeginBoot;
    hide Load;
    hide LogOk;
    hide LastStaged;
    hide Starts;
    hide LastConfirmed;
    if w.phase == Choosing {
      BeginMoves(w.store, f);
      LoadedValid(w.store);
      var st := Load(w.store).value;
      if st.pending.Some? {
        LogGrows(w.log, RolledBack(st.confirmed), origin);
        assert Agrees(BeginBoot(w.store, f).0, DoBegin(w, f).log, origin);
      }
    }
  }

  lemma HandOffGood(w: World, address: nat, origin: SystemSlot)
    requires Good(w, origin)
    ensures Good(DoHandOff(w, address), origin)
  {
    hide Sound;
    hide Load;
    hide LogOk;
    hide LastStaged;
    hide Starts;
    hide LastConfirmed;
    if w.phase.Decided? {
      LoadedValid(w.store);
      var d, st := w.phase.decision, Load(w.store).value;
      LogGrows(w.log, if d.trialAttempt == 0 then ConfirmedStarted(d.slot, Stageable(Context(address, st.generation, st.confirmed.Code(), 0, UPDATE_STAGEABLE))) else TrialStarted(ReadyRecord(d.slot.Code(), d.trialAttempt, st.generation)), origin);
    }
  }

  lemma ChooseGood(w: World, selection: Selection, origin: SystemSlot)
    requires Good(w, origin)
    ensures Good(DoChoose(w, selection), origin)
  {
    hide Sound;
    hide Load;
    hide LogOk;
    hide LastStaged;
    hide Starts;
    hide LastConfirmed;
    if w.phase.StageChecked? {
      LogGrows(w.log, ConfirmedStarted(w.phase.state.confirmed, None), origin);
    }
  }

  lemma AskReadyGood(w: World, origin: SystemSlot)
    requires Good(w, origin)
    ensures Good(DoAskReady(w), origin)
  {
    hide Sound;
    hide Load;
    hide LogOk;
    hide LastStaged;
    hide Starts;
    hide LastConfirmed;
    if w.phase.Running? && w.phase.readyGate == Armed {
      LogGrows(w.log, ReadyReported(ReadyOf(w.phase.context)), origin);
    }
  }

  lemma AskStageGood(w: World, origin: SystemSlot)
    requires Good(w, origin)
    ensures Good(DoAskStage(w), origin)
  {
    hide Sound;
    hide Load;
    hide LogOk;
    hide LastStaged;
    hide Starts;
    hide LastConfirmed;
    if w.phase.Running? && w.phase.stageGate == Armed {
      LogGrows(w.log, StageRequested(StageOf(w.phase.context)), origin);
    }
  }

  lemma StepGood(w: World, a: Action, origin: SystemSlot)
    requires Good(w, origin)
    ensures Good(Step(w, a), origin)
  {
    hide Sound;
    hide Load;
    hide LogOk;
    hide LastStaged;
    hide Starts;
    hide LastConfirmed;
    hide DoReady;
    hide DoStage;
    hide DoBegin;
    hide DoHandOff;
    hide DoChoose;
    hide DoAskReady;
    hide DoAskStage;
    match a
    case CheckReady(visible, readable, f, deleted) => ReadyGood(w, visible, readable, f, deleted, origin);
    case CheckStage(visible, readable, manifestsOk, baseline, f, deleted) => StageGood(w, visible, readable, manifestsOk, baseline, f, deleted, origin);
    case Choose(selection) => ChooseGood(w, selection, origin);
    case Begin(f) => BeginGood(w, f, origin);
    case HandOff(address) => HandOffGood(w, address, origin);
    case AskReady => AskReadyGood(w, origin);
    case AskStage => AskStageGood(w, origin);
    case _ =>
  }

  lemma {:induction false} RunGood(w: World, actions: seq<Action>, origin: SystemSlot)
    requires Good(w, origin)
    ensures Good(Run(w, actions), origin)
    decreases |actions|
  {
    hide Good;
    hide Step;
    if actions != [] {
      StepGood(w, actions[0], origin);
      RunGood(Step(w, actions[0]), actions[1..], origin);
    }
  }

  // ----- Main results -----

  /** In every run the history is justified event by event: only a slot whose own
      trial was started and then reported ready is confirmed, a candidate is started
      at most three times, and a rollback returns to the slot confirmed before it was
      accepted. The journal's confirmed slot is the one the history confirms. */
  lemma EveryRun(w: World, actions: seq<Action>, origin: SystemSlot)
    requires Fresh(w, origin)
    ensures LogOk(Run(w, actions).log, origin)
    ensures Load(Run(w, actions).store).Ok? ==> Load(Run(w, actions).store).value.confirmed == LastConfirmed(Run(w, actions).log, origin)
    ensures forall k :: 0 <= k <= |Run(w, actions).log| ==> Starts(Run(w, actions).log[..k]) <= MAX_BOOT_ATTEMPTS
  {
    RunGood(w, actions, origin);
    var log := Run(w, actions).log;
    forall k | 0 <= k <= |log|
      ensures Starts(log[..k]) <= MAX_BOOT_ATTEMPTS
    {
      StartsBounded(log, k, origin);
    }
  }

  lemma {:induction false} StartsBounded(log: seq<Event>, k: nat, origin: SystemSlot)
    requires LogOk(log, origin) && k <= |log|
    ensures Starts(log[..k]) <= MAX_BOOT_ATTEMPTS
  {
    if k > 0 {
      StartsBounded(log, k - 1, origin);
      assert log[..k][..k - 1] == log[..k - 1];
      assert Justified(log[..k - 1], log[k - 1], origin);
    }
  }

  /** A confirmation has the whole chain behind it: this very trial was started, and
      later reported ready, before it was confirmed. */
  lemma ConfirmedByOwnTrial(w: World, actions: seq<Action>, origin: SystemSlot, k: nat)
    requires Fresh(w, origin) && k < |Run(w, actions).log| && Run(w, actions).log[k].Confirmed?
    ensures var log := Run(w, actions).log;
            exists i, j :: 0 <= i < j < k && log[i] == TrialStarted(log[k].trial) && log[j] == ReadyReported(log[k].trial)
  {
    EveryRun(w, actions, origin);
    var log := Run(w, actions).log;
    assert Justified(log[..k], log[k], origin);
    var j :| 0 <= j < |log[..k]| && log[..k][j] == ReadyReported(log[k].trial);
    assert Justified(log[..j], log[j], origin);
    var i :| 0 <= i < |log[..j]| && log[..j][i] == TrialStarted(log[k].trial);
    assert log[i] == TrialStarted(log[k].trial) && log[j] == ReadyReported(log[k].trial);
  }

  /** The journal's generation never goes back, and every confirmation or accepted
      candidate moves it on; a journal that refuses to load stays refused. */
  lemma StepGeneration(w: World, a: Action, origin: SystemSlot)
    requires Good(w, origin)
    ensures var s, s' := w.store, Step(w, a).store;
            && (Load(s).Err? ==> s' == s)
            && (Load(s).Ok? && Load(s').Ok? ==>
                  && Load(s').value.generation >= Load(s).value.generation
                  && (Load(s').value.confirmed != Load(s).value.confirmed || (Load(s).value.pending.None? && Load(s').value.pending.Some?) ==>
                        Load(s').value.generation > Load(s).value.generation))
  {
    hide Sound;
    hide Load;
    hide LogOk;
    hide Agrees;
    hide MarkBootSuccess;
    hide StageUpdate;
    hide BeginBoot;
    RefusedStays(w.store);
    if Load(w.store).Ok? {
      match a
      case CheckReady(_, _, f, _) =>
        if w.ready.Holding? {
          MarkMoves(w.store, SlotOf(w.ready.record.slot), f);
        }
      case CheckStage(_, readable, manifestsOk, baseline, f, _) =>
        if w.phase.ReadyChecked? && readable && w.stage.Holding? {
          var accepted := AcceptStage(Some(w.stage.record), w.phase.state, manifestsOk);
          if accepted.Some? {
            StageMoves(w.store, accepted.value, baseline, f);
          }
        }
      case Begin(f) => BeginMoves(w.store, f);
      case _ =>
    }
  }

  lemma RefusedStays(s: Store)
    ensures Load(s).Err? ==> forall slot, f: Fate :: MarkBootSuccess(s, slot, f).0 == s
    ensures Load(s).Err? ==> forall slot, baseline: Fate, f: Fate :: StageUpdate(s, slot, baseline, f).0 == s
    ensures Load(s).Err? ==> forall f: Fate :: BeginBoot(s, f).0 == s
  {
  }

  /** A record for a generation the journal has left behind is refused after any
      further run, whether or not it was ever deleted. */
  lemma {:induction false} StaleForever(w: World, actions: seq<Action>, origin: SystemSlot, generation: nat)
    requires Good(w, origin) && Load(w.store).Ok? && generation < Load(w.store).value.generation
    ensures var s := Run(w, actions).store;
            Load(s).Ok? ==>
              && generation < Load(s).value.generation
              && (forall r: ReadyRecord :: r.generation == generation ==> !Matches(r, Load(s).value))
              && (forall r: StageRecord, ok :: r.generation == generation ==> AcceptStage(Some(r), Load(s).value, ok).None?)
    decreases |actions|
  {
    hide Good;
    hide Step;
    hide Load;
    if actions != [] {
      var w1 := Step(w, actions[0]);
      StepGood(w, actions[0], origin);
      StepGeneration(w, actions[0], origin);
      if Load(w1.store).Ok? {
        StaleForever(w1, actions[1..], origin, generation);
      } else {
        RefusedForever(w1, actions[1..], origin);
      }
    }
  }

  lemma {:induction false} RefusedForever(w: World, actions: seq<Action>, origin: SystemSlot)
    requires Good(w, origin) && Load(w.store).Err?
    ensures Run(w, actions).store == w.store
    decreases |actions|
  {
    hide Good;
    hide Step;
    hide Load;
    if actions != [] {
      StepGood(w, actions[0], origin);
      StepGeneration(w, actions[0], origin);
      RefusedForever(Step(w, actions[0]), actions[1..], origin);
    }
  }

  /** Honouring a readiness record makes it stale at once: the record that confirmed
      a slot can never be honoured a second time. */
  lemma HonouredOnce(w: World, a: Action, later: seq<Action>, origin: SystemSlot)
    requires Good(w, origin) && Load(w.store).Ok? && w.ready.Holding?
    requires Load(Step(w, a).store).Ok? && Load(Step(w, a).store).value.confirmed != Load(w.store).value.confirmed
    ensures Matches(w.ready.record, Load(w.store).value)
    ensures var s := Run(Step(w, a), later).store;
            Load(s).Ok? ==> !Matches(w.ready.record, Load(s).value)
  {
    hide Load;
    OnlyReadyConfirms(w, a, origin);
    StepGeneration(w, a, origin);
    StepGood(w, a, origin);
    StaleForever(Step(w, a), later, origin, w.ready.record.generation);
  }

  /** The confirmed slot changes in one way only. */
  lemma OnlyReadyConfirms(w: World, a: Action, origin: SystemSlot)
    requires Good(w, origin) && Load(w.store).Ok? && Load(Step(w, a).store).Ok?
    requires Load(Step(w, a).store).value.confirmed != Load(w.store).value.confirmed
    ensures a.CheckReady? && w.ready.Holding? && Matches(w.ready.record, Load(w.store).value)
    ensures Load(Step(w, a).store).value.confirmed == SlotOf(w.ready.record.slot)
    ensures ReadyReported(w.ready.record) in w.log && Step(w, a).log == w.log + [Confirmed(w.ready.record)]
  {
    hide Sound;
    hide Load;
    hide LogOk;
    hide Agrees;
    hide MarkBootSuccess;
    hide StageUpdate;
    hide BeginBoot;
    match a
    case CheckReady(_, _, f, _) =>
      if w.ready.Holding? {
        MarkMoves(w.store, SlotOf(w.ready.record.slot), f);
      }
    case CheckStage(_, readable, manifestsOk, baseline, f, _) =>
      if w.phase.ReadyChecked? && readable && w.stage.Holding? {
        var accepted := AcceptStage(Some(w.stage.record), w.phase.state, manifestsOk);
        if accepted.Some? {
          StageMoves(w.store, accepted.value, baseline, f);
        }
      }
    case Begin(f) => BeginMoves(w.store, f);
    case _ =>
  }

  /** Once the budget is spent, the next automatic boot that reaches a kernel starts
      the slot that was confirmed before the candidate. */
  lemma SpentBudgetFallsBack(w: World, f: Fate, address: nat, origin: SystemSlot)
    requires Good(w, origin) && w.phase == Choosing && Load(w.store).value.pending.Some?
    requires Load(w.store).value.attempts == MAX_BOOT_ATTEMPTS
    ensures var w' := Step(Step(w, Begin(f)), HandOff(address));
            w'.phase.Running? ==>
              && LastStaged(w.log).Some?
              && w'.log == w.log + [RolledBack(LastStaged(w.log).value.1), ConfirmedStarted(LastStaged(w.log).value.1, Stageable(w'.phase.context))]
              && Load(w'.store).Ok? && Load(w'.store).value.pending.None? && Load(w'.store).value.confirmed == LastStaged(w.log).value.1
  {
    hide Sound;
    hide Load;
    hide LogOk;
    hide BeginBoot;
    hide LastStaged;
    hide DoBegin;
    hide DoReady;
    hide DoStage;
    hide DoChoose;
    hide Good;
    hide DoHandOff;
    BudgetSpent(w, f, origin);
    var slot := Load(w.store).value.confirmed;
    var w1 := DoBegin(w, f);
    if w1.phase.Decided? {
      HandOffPlain(w1, address);
      var started := ConfirmedStarted(slot, Stageable(DoHandOff(w1, address).phase.context));
      assert w.log + [RolledBack(slot)] + [started] == w.log + [RolledBack(slot), started];
    } else {
      assert DoHandOff(w1, address) == w1 by {
        HandOffIdle(w1, address);
      }
    }
  }

  lemma HandOffIdle(w: World, address: nat)
    requires !w.phase.Decided?
    ensures DoHandOff(w, address) == w
  {
  }

  lemma HandOffPlain(w: World, address: nat)
    requires w.phase.Decided? && w.phase.decision.trialAttempt == 0 && Load(w.store).Ok?
    ensures var w' := DoHandOff(w, address);
            w'.phase.Running? && w'.store == w.store && w'.log == w.log + [ConfirmedStarted(w.phase.decision.slot, Stageable(w'.phase.context))]
  {
    hide Load;
  }

  lemma BudgetSpent(w: World, f: Fate, origin: SystemSlot)
    requires Good(w, origin) && w.phase == Choosing && Load(w.store).value.pending.Some?
    requires Load(w.store).value.attempts == MAX_BOOT_ATTEMPTS
    ensures Load(w.store).Ok?
    ensures var slot := Load(w.store).value.confirmed;
            var w1 := DoBegin(w, f);
            && LastStaged(w.log).Some? && LastStaged(w.log).value.1 == slot
            && (w1.phase == Off || w1.phase == Decided(BootDecision(slot, 0, true)))
            && (w1.phase.Decided? ==>
                  && w1.log == w.log + [RolledBack(slot)]
                  && Load(w1.store).Ok? && Load(w1.store).value.pending.None? && Load(w1.store).value.confirmed == slot)
  {
    hide Sound;
    hide Load;
    hide LogOk;
    hide BeginBoot;
    hide LastStaged;
    hide Starts;
    hide LastConfirmed;
    BeginMoves(w.store, f);
    var (s', r) := BeginBoot(w.store, f);
    assert r.Ok? ==> r.value == BootDecision(Load(w.store).value.confirmed, 0, true);
  }
}
