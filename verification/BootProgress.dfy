/** What the boot protocol is for: a candidate that runs and reports is confirmed,
    and a confirmed system that asks for an update gets its candidate. */
module BootProgress {
  import opened Prelude
  import opened BootRecord
  import opened Journal
  import opened BootGates
  import opened BootProtocol

  /** A completed write is what `load` finds, one generation later. */
  lemma Completed(s: Store, next: BootState)
    requires Sound(s) && CurrentOf(s).Ok? && CurrentOf(s).value.copy.Some? && ValidState(next) && Load(s).value.generation < U64_MAX
    ensures var (s', r) := Persist(s, CurrentOf(s).value, next, Done);
            r.Ok? && Sound(s') && Load(s') == Ok(next.(generation := Load(s).value.generation + 1)) && CurrentOf(s').value.copy.Some?
  {
    hide Persist;
    hide CurrentOf;
    hide Sound;
    PersistRecovers(s, Load(s).value, next, Done);
  }

  lemma Recorded(s: Store)
    requires Sound(s) && Load(s).Ok? && Load(s).value.pending.Some?
    ensures CurrentOf(s).Ok? && CurrentOf(s).value.copy.Some? && ValidState(Load(s).value)
  {
    SoundCases(s);
    LoadedValid(s);
  }

  // ----- Runs in legs -----

  lemma {:induction false} RunAppend(w: World, xs: seq<Action>, ys: seq<Action>)
    ensures Run(w, xs + ys) == Run(Run(w, xs), ys)
    decreases |xs|
  {
    if xs == [] {
      assert xs + ys == ys;
    } else {
      RunAppend(Step(w, xs[0]), xs[1..], ys);
      assert (xs + ys)[1..] == xs[1..] + ys;
    }
  }

  lemma RunTwo(w: World, a: Action, b: Action)
    ensures Run(w, [a, b]) == Step(Step(w, a), b)
  {
    assert [a, b][1..] == [b];
    assert Run(Step(w, a), [b]) == Step(Step(w, a), b);
  }

  // ----- A trial that reports is confirmed -----

  /** Beginning a boot with attempts left starts the candidate as a counted trial. */
  lemma TrialStarts(w: World, a: nat, origin: SystemSlot)
    requires Good(w, origin) && w.phase == Choosing && a != 0
    requires var st := Load(w.store).value; st.pending.Some? && st.attempts < MAX_BOOT_ATTEMPTS && st.generation < U64_MAX
    ensures var st, w' := Load(w.store).value, Run(w, [Begin(Done), HandOff(a)]);
            && Sound(w'.store) && Load(w'.store) == Ok(st.(attempts := st.attempts + 1, generation := st.generation + 1))
            && w'.phase == Running(Context(a, st.generation + 1, st.pending.value.Code(), st.attempts + 1, 0), Armed, Disabled)
  {
    hide Sound;
    hide CurrentOf;
    hide Persist;
    hide LogOk;
    hide Agrees;
    hide Run;
    var st := Load(w.store).value;
    Recorded(w.store);
    Completed(w.store, st.(attempts := st.attempts + 1));
    RunTwo(w, Begin(Done), HandOff(a));
  }

  /** The trial's one report survives the power loss after it. */
  lemma TrialReports(w: World)
    requires w.phase.Running? && w.phase.readyGate == Armed
    ensures var w' := Run(w, [AskReady, AnswerReady(Stored)] + [PowerLoss]);
            w'.store == w.store && w'.ready == Holding(ReadyOf(w.phase.context)) && w'.phase == Off
  {
    RunAppend(w, [AskReady, AnswerReady(Stored)], [PowerLoss]);
    RunTwo(w, AskReady, AnswerReady(Stored));
  }

  /** The next loader run finds the report and confirms the candidate. */
  lemma ReportConfirms(w: World, deleted: bool)
    requires Sound(w.store) && w.phase == Off && Load(w.store).Ok? && w.ready.Holding?
    requires Matches(w.ready.record, Load(w.store).value) && Load(w.store).value.generation < U64_MAX
    ensures var st, w' := Load(w.store).value, Run(w, [LoadJournal, CheckReady(true, true, Done, deleted)]);
            && Load(w'.store) == Ok(BootState(st.pending.value, None, 0, st.generation + 1))
            && w'.phase == ReadyChecked(Load(w'.store).value)
  {
    hide Sound;
    hide CurrentOf;
    hide Persist;
    hide Run;
    var st := Load(w.store).value;
    Recorded(w.store);
    Completed(w.store, st.(confirmed := st.pending.value, pending := None, attempts := 0));
    RunTwo(w, LoadJournal, CheckReady(true, true, Done, deleted));
  }

  /** One good trial is enough: with attempts left, a candidate that boots, reports and
      is checked by the next loader run becomes the confirmed system. */
  lemma TrialConfirmed(w: World, a: nat, deleted: bool, origin: SystemSlot)
    requires Good(w, origin) && w.phase == Choosing && a != 0
    requires var st := Load(w.store).value; st.pending.Some? && st.attempts < MAX_BOOT_ATTEMPTS && st.generation + 2 <= U64_MAX
    ensures var st := Load(w.store).value;
            var w' := Run(w, [Begin(Done), HandOff(a), AskReady, AnswerReady(Stored), PowerLoss, LoadJournal, CheckReady(true, true, Done, deleted)]);
            Load(w'.store) == Ok(BootState(st.pending.value, None, 0, st.generation + 2))
            && w'.phase == ReadyChecked(Load(w'.store).value)
  {
    hide Run;
    hide Load;
    hide Sound;
    hide Good;
    var start: seq<Action> := [Begin(Done), HandOff(a)];
    var report: seq<Action> := [AskReady, AnswerReady(Stored)] + [PowerLoss];
    var check: seq<Action> := [LoadJournal, CheckReady(true, true, Done, deleted)];
    TrialStarts(w, a, origin);
    var w1 := Run(w, start);
    TrialReports(w1);
    var w2 := Run(w1, report);
    ReportConfirms(w2, deleted);
    RunAppend(w, start, report);
    RunAppend(w, start + report, check);
    assert start + report + check == [Begin(Done), HandOff(a), AskReady, AnswerReady(Stored), PowerLoss, LoadJournal, CheckReady(true, true, Done, deleted)];
  }

  // ----- A confirmed system that asks gets its candidate -----

  /** With nothing pending the confirmed slot starts and may ask for an update. */
  lemma ConfirmedStarts(w: World, f: Fate, a: nat)
    requires Sound(w.store) && w.phase == Choosing && Load(w.store).Ok? && Load(w.store).value.pending.None? && a != 0
    ensures var st, w' := Load(w.store).value, Run(w, [Begin(f), HandOff(a)]);
            w'.store == w.store && w'.phase == Running(Context(a, st.generation, st.confirmed.Code(), 0, UPDATE_STAGEABLE), Disabled, Armed)
  {
    hide CurrentOf;
    hide Sound;
    hide Run;
    RunTwo(w, Begin(f), HandOff(a));
  }

  lemma RequestStored(w: World)
    requires w.phase.Running? && w.phase.stageGate == Armed
    ensures var w' := Run(w, [AskStage, AnswerStage(Stored)] + [PowerLoss]);
            w'.store == w.store && w'.stage == Holding(StageOf(w.phase.context)) && w'.phase == Off
  {
    RunAppend(w, [AskStage, AnswerStage(Stored)], [PowerLoss]);
    RunTwo(w, AskStage, AnswerStage(Stored));
  }

  /** The slot that is not confirmed. */
  function Spare(slot: SystemSlot): SystemSlot {
    if slot == A then B else A
  }

  lemma StageCompletes(s: Store)
    requires Sound(s) && Load(s).Ok? && Load(s).value.pending.None? && Load(s).value.generation < U64_MAX
    ensures var (s', r) := StageUpdate(s, Spare(Load(s).value.confirmed), Done, Done);
            && r.Ok? && Sound(s') && Load(s').Ok?
            && Same(Load(s').value, BootState(Load(s).value.confirmed, Some(Spare(Load(s).value.confirmed)), 0, 0))
            && Load(s').value.generation <= Load(s).value.generation + 2
            && (Load(s').value.generation == Load(s).value.generation + 1 || s == Store(None, None))
  {
    hide Persist;
    hide CurrentOf;
    hide Sound;
    LoadedValid(s);
    SoundCases(s);
    var st := Load(s).value;
    var slot := Spare(st.confirmed);
    if CurrentOf(s).value.copy.Some? {
      Completed(s, Staged(st, slot));
    } else {
      BaselineDone(s);
      var s1 := Persist(s, CurrentOf(s).value, st, Done).0;
      Completed(s1, Staged(Load(s1).value, slot));
    }
  }

  lemma BaselineDone(s: Store)
    requires s == Store(None, None)
    ensures var (s', r) := Persist(s, CurrentOf(s).value, Initial(), Done);
            && r.Ok? && Sound(s') && Load(s') == Ok(Initial().(generation := 1)) && CurrentOf(s').value.copy.Some?
            && s'.first.Some? && s'.second.None?
  {
    hide DecodeRecord;
    hide EncodeRecord;
    EncodedRead(Initial().(generation := 1));
  }

  /** The next loader run honours the request, whatever the readiness variable holds. */
  lemma RequestStaged(w: World, visible: bool, readable: bool, f: Fate, deleted: bool, gone: bool)
    requires Sound(w.store) && w.phase == Off && Load(w.store).Ok? && Load(w.store).value.pending.None? && Load(w.store).value.generation < U64_MAX
    requires w.stage == Holding(StageRecord(TargetOf(Load(w.store).value.confirmed.Code()), Load(w.store).value.generation))
    ensures var st := Load(w.store).value;
            var w' := Run(w, [LoadJournal, CheckReady(visible, readable, f, deleted)] + [CheckStage(true, true, true, Done, Done, gone)]);
            && w'.store == StageUpdate(w.store, Spare(st.confirmed), Done, Done).0
            && Load(w'.store).Ok? && w'.phase == StageChecked(Load(w'.store).value)
  {
    hide Run;
    hide Load;
    hide Sound;
    hide Step;
    hide StageUpdate;
    RunAppend(w, [LoadJournal, CheckReady(visible, readable, f, deleted)], [CheckStage(true, true, true, Done, Done, gone)]);
    NothingToConfirm(w, visible, readable, f, deleted);
    var w1 := Run(w, [LoadJournal, CheckReady(visible, readable, f, deleted)]);
    RunOne(w1, CheckStage(true, true, true, Done, Done, gone));
    RequestHonoured(w1, gone);
  }

  /** With nothing pending no readiness record counts. */
  lemma NothingToConfirm(w: World, visible: bool, readable: bool, f: Fate, deleted: bool)
    requires w.phase == Off && Load(w.store).Ok? && Load(w.store).value.pending.None?
    ensures var w' := Run(w, [LoadJournal, CheckReady(visible, readable, f, deleted)]);
            w'.store == w.store && w'.stage == w.stage && w'.phase == ReadyChecked(Load(w.store).value)
  {
    hide Run;
    hide Load;
    RunTwo(w, LoadJournal, CheckReady(visible, readable, f, deleted));
  }

  lemma RequestHonoured(w: World, gone: bool)
    requires Sound(w.store) && Load(w.store).Ok? && w.phase == ReadyChecked(Load(w.store).value)
    requires Load(w.store).value.pending.None? && Load(w.store).value.generation < U64_MAX
    requires w.stage == Holding(StageRecord(TargetOf(Load(w.store).value.confirmed.Code()), Load(w.store).value.generation))
    ensures var w' := Step(w, CheckStage(true, true, true, Done, Done, gone));
            && w'.store == StageUpdate(w.store, Spare(Load(w.store).value.confirmed), Done, Done).0
            && Load(w'.store).Ok? && w'.phase == StageChecked(Load(w'.store).value)
  {
    hide Load;
    hide Sound;
    hide StageUpdate;
    hide StagedEvents;
    StageCompletes(w.store);
    assert AcceptStage(Some(w.stage.record), w.phase.state, true) == Some(Spare(w.phase.state.confirmed));
  }

  lemma RunOne(w: World, a: Action)
    ensures Run(w, [a]) == Step(w, a)
  {
  }

  /** A confirmed boot that asks for an update and passes the manifests ends with the
      other slot pending, no attempts used, and the same slot confirmed. */
  lemma UpdateStaged(w: World, b: Fate, a: nat, visible: bool, readable: bool, f: Fate, deleted: bool, gone: bool, origin: SystemSlot)
    requires Good(w, origin) && w.phase == Choosing && a != 0
    requires Load(w.store).value.pending.None? && Load(w.store).value.generation < U64_MAX
    ensures var st := Load(w.store).value;
            var w' := Run(w, [Begin(b), HandOff(a), AskStage, AnswerStage(Stored), PowerLoss, LoadJournal, CheckReady(visible, readable, f, deleted), CheckStage(true, true, true, Done, Done, gone)]);
            && Load(w'.store).Ok? && w'.phase == StageChecked(Load(w'.store).value)
            && Same(Load(w'.store).value, BootState(st.confirmed, Some(Spare(st.confirmed)), 0, 0))
            && Load(w'.store).value.generation <= st.generation + 2
  {
    hide Run;
    hide Load;
    hide Sound;
    hide LogOk;
    hide Agrees;
    hide StageUpdate;
    var start: seq<Action> := [Begin(b), HandOff(a)];
    var ask: seq<Action> := [AskStage, AnswerStage(Stored)] + [PowerLoss];
    var check: seq<Action> := [LoadJournal, CheckReady(visible, readable, f, deleted)] + [CheckStage(true, true, true, Done, Done, gone)];
    ConfirmedStarts(w, b, a);
    var w1 := Run(w, start);
    RequestStored(w1);
    var w2 := Run(w1, ask);
    RequestStaged(w2, visible, readable, f, deleted, gone);
    StageCompletes(w.store);
    RunAppend(w, start, ask);
    RunAppend(w, start + ask, check);
    assert start + ask + check
        == [Begin(b), HandOff(a), AskStage, AnswerStage(Stored), PowerLoss, LoadJournal, CheckReady(visible, readable, f, deleted), CheckStage(true, true, true, Done, Done, gone)];
  }

  // ----- A whole update -----

  /** From a confirmed system with nothing pending: ask, restart, stage, try, report and
      restart again, and the other slot is the confirmed one. */
  lemma UpdateCompletes(w: World, a: nat, origin: SystemSlot)
    requires Good(w, origin) && w.phase == Choosing && a != 0
    requires Load(w.store).value.pending.None? && Load(w.store).value.generation + 4 <= U64_MAX
    ensures var st := Load(w.store).value;
            var staged: seq<Action> := [Begin(Done), HandOff(a), AskStage, AnswerStage(Stored), PowerLoss, LoadJournal, CheckReady(true, true, Done, true), CheckStage(true, true, true, Done, Done, true)];
            var tried: seq<Action> := [Begin(Done), HandOff(a), AskReady, AnswerReady(Stored), PowerLoss, LoadJournal, CheckReady(true, true, Done, true)];
            var w' := Run(w, staged + [Choose(Automatic)] + tried);
            Load(w'.store).Ok? && Load(w'.store).value.confirmed == Spare(st.confirmed) && Load(w'.store).value.pending.None?
  {
    hide Run;
    hide Load;
    hide Good;
    var staged: seq<Action> := [Begin(Done), HandOff(a), AskStage, AnswerStage(Stored), PowerLoss, LoadJournal, CheckReady(true, true, Done, true), CheckStage(true, true, true, Done, Done, true)];
    var tried: seq<Action> := [Begin(Done), HandOff(a), AskReady, AnswerReady(Stored), PowerLoss, LoadJournal, CheckReady(true, true, Done, true)];
    UpdateStaged(w, Done, a, true, true, Done, true, true, origin);
    RunGood(w, staged, origin);
    var w1 := Run(w, staged);
    RunOne(w1, Choose(Automatic));
    StepGood(w1, Choose(Automatic), origin);
    var w2 := Step(w1, Choose(Automatic));
    TrialConfirmed(w2, a, true, origin);
    RunAppend(w, staged, [Choose(Automatic)]);
    RunAppend(w, staged + [Choose(Automatic)], tried);
  }

  // ----- What the loader does with what it finds -----

  /** A copy that holds a valid record. */
  predicate Copy(s: Store, c: RecordCopy, st: BootState) {
    s.Read(c) == Some(st)
  }

  /** The journal that loads is empty, or gives the newest valid copy; it is refused exactly
      when something is stored and no copy is valid, or when two valid copies of one
      generation differ. */
  lemma LoadsNewest(s: Store)
    ensures Load(s).Err? <==> || (s != Store(None, None) && forall c :: s.Read(c).None?)
                              || (exists x, y :: Copy(s, First, x) && Copy(s, Second, y) && x != y && x.generation == y.generation)
    ensures Load(s).Ok? ==>
              var st := Load(s).value;
              && (s == Store(None, None) ==> st == Initial())
              && (s != Store(None, None) ==> exists c :: Copy(s, c, st))
              && (forall c, x :: Copy(s, c, x) ==> x.generation <= st.generation && (x.generation == st.generation ==> x == st))
  {
    hide DecodeRecord;
    assert s == Store(None, None) ==> s.Read(First).None? && s.Read(Second).None?;
    if s.Read(First).Some? {
      assert Copy(s, First, s.Read(First).value);
    }
    if s.Read(Second).Some? {
      assert Copy(s, Second, s.Read(Second).value);
    }
  }

  /** Why an operation of the journal is refused before anything is written. */
  lemma JournalRefuses(s: Store, slot: SystemSlot, baseline: Fate, f: Fate)
    requires Load(s).Ok?
    ensures var st, (s', r) := Load(s).value, StageUpdate(s, slot, baseline, f);
            && (st.pending.Some? ==> r == Err(UpdateAlreadyPending) && s' == s)
            && (st.pending.None? && slot == st.confirmed ==> r == Err(CannotUpdateConfirmedSlot) && s' == s)
            && (st.pending.None? && slot != st.confirmed && st.generation == U64_MAX ==> r == Err(GenerationExhausted) && s' == s)
    ensures var st, (s', r) := Load(s).value, MarkBootSuccess(s, slot, f);
            && (st.pending != Some(slot) && !(st.pending.None? && st.confirmed == slot) ==> r == Err(UnexpectedBootSuccess) && s' == s)
            && (st.pending == Some(slot) && st.generation == U64_MAX ==> r == Err(GenerationExhausted) && s' == s)
  {
    hide Write;
    if CurrentOf(s).value.copy.None? {
      assert Load(s).value.generation == 0;
    }
  }

  /** A readiness record of anything but the pending trial, at its attempt and generation,
      changes nothing in the journal; it is used up all the same. */
  lemma OtherReportsIgnored(w: World, readable: bool, f: Fate, deleted: bool)
    requires w.phase.Loaded? && !w.ready.Absent?
    requires var st := w.phase.state;
             w.ready.Holding? && readable ==> st.pending.None? || w.ready.record != ReadyRecord(st.pending.value.Code(), st.attempts, st.generation)
    ensures var w' := Step(w, CheckReady(true, readable, f, deleted));
            && w'.store == w.store && w'.log == w.log && w'.phase == ReadyChecked(w.phase.state)
            && (deleted ==> w'.ready.Absent?)
  {
  }

  /** A stage request is looked at once, honoured or not. */
  lemma RequestUsedUp(w: World, readable: bool, manifestsOk: bool, baseline: Fate, f: Fate)
    requires w.phase.ReadyChecked?
    ensures Step(w, CheckStage(true, readable, manifestsOk, baseline, f, true)).stage.Absent?
  {
    hide StageUpdate;
    hide Load;
  }

  /** A request is refused, and nothing written, unless it is for the slot not confirmed, at
      the journal's generation, with nothing pending and manifests that pass. */
  lemma OtherRequestsRefused(w: World, readable: bool, manifestsOk: bool, baseline: Fate, f: Fate, deleted: bool)
    requires w.phase.ReadyChecked? && !w.stage.Absent?
    requires var st := w.phase.state;
             w.stage.Holding? && readable && manifestsOk ==>
               st.pending.Some? || w.stage.record.generation != st.generation || (w.stage.record.slot == 0 <==> st.confirmed == A)
    ensures var w' := Step(w, CheckStage(true, readable, manifestsOk, baseline, f, deleted));
            w'.store == w.store && w'.log == w.log && w'.phase == StageChecked(w.phase.state)
  {
    hide StageUpdate;
    hide Load;
  }

  /** The menu never touches the journal. Recovery and the confirmed slot start as plain boots
      that can neither report nor stage; everything else goes on to the journal's decision. */
  lemma MenuChoices(w: World, selection: Selection)
    requires w.phase.StageChecked?
    ensures var w', confirmed := Step(w, Choose(selection)), w.phase.state.confirmed;
            && w'.store == w.store && w'.ready == w.ready && w'.stage == w.stage
            && (selection == Recovery ==> w'.phase == Running(NO_CONTEXT, Disabled, Disabled) && w'.log == w.log)
            && (selection == Pick(confirmed) ==> w'.phase == Running(NO_CONTEXT, Disabled, Disabled) && w'.log == w.log + [ConfirmedStarted(confirmed, None)])
            && (selection == Automatic || (selection.Pick? && selection.slot != confirmed) ==> w'.phase == Choosing && w'.log == w.log)
  {
  }

  /** Without firmware to write to, neither gate opens. */
  lemma NoFirmwareNoGates(c: Context)
    requires c.address == 0
    ensures Boot(c) == Running(c, Disabled, Disabled)
  {
  }
}
