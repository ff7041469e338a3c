/** The two-copy boot-control journal over a store whose writes can be cut short. */
module Journal {
  import opened Prelude
  import opened BootRecord

  datatype BootError =
    | Storage
    | CorruptRecords
    | UpdateAlreadyPending
    | CannotUpdateConfirmedSlot
    | UnexpectedBootSuccess
    | GenerationExhausted

  datatype RecordCopy = First | Second {
    function Other(): RecordCopy {
      if this == First then Second else First
    }
  }

  /** What the firmware holds under each record name, of any length. */
  datatype Store = Store(first: Option<seq<Byte>>, second: Option<seq<Byte>>) {
    function At(c: RecordCopy): Option<seq<Byte>> {
      if c == First then first else second
    }

    function Put(c: RecordCopy, bytes: Option<seq<Byte>>): Store {
      if c == First then this.(first := bytes) else this.(second := bytes)
    }

    /** The valid state stored in one copy. */
    function Read(c: RecordCopy): Option<BootState> {
      if At(c).Some? && |At(c).value| == RECORD_SIZE then DecodeRecord(At(c).value) else None
    }
  }

  datatype Current = Current(state: BootState, copy: Option<RecordCopy>)

  function CurrentOf(s: Store): Result<Current, BootError> {
    match (s.Read(First), s.Read(Second))
    case (None, None) => if s == Store(None, None) then Ok(Current(Initial(), None)) else Err(CorruptRecords)
    case (Some(x), None) => Ok(Current(x, Some(First)))
    case (None, Some(y)) => Ok(Current(y, Some(Second)))
    case (Some(x), Some(y)) =>
      if x.generation == y.generation then if x == y then Ok(Current(x, Some(First))) else Err(CorruptRecords)
      else if x.generation > y.generation then Ok(Current(x, Some(First)))
      else Ok(Current(y, Some(Second)))
  }

  /** How a record write ends. Every outcome but `Done` is an error or a power
      loss: nothing written, the new record durable after all, or torn bytes. */
  datatype RawFate = Done | Untouched | Durable | Torn(bytes: seq<Byte>)

  predicate Rejected(bytes: seq<Byte>) {
    |bytes| == RECORD_SIZE ==> DecodeRecord(bytes).None?
  }

  type Fate = f: RawFate | f.Torn? ==> Rejected(f.bytes) witness Done

  function Write(s: Store, c: RecordCopy, record: seq<Byte>, f: Fate): (Store, Result<(), BootError>) {
    match f
    case Done => (s.Put(c, Some(record)), Ok(()))
    case Untouched => (s, Err(Storage))
    case Durable => (s.Put(c, Some(record)), Err(Storage))
    case Torn(bytes) => (s.Put(c, Some(bytes)), Err(Storage))
  }

  /** Write the next state to the copy that is not current. */
  function Persist(s: Store, current: Current, next: BootState, f: Fate): (Store, Result<(), BootError>) {
    if current.state.generation >= U64_MAX then (s, Err(GenerationExhausted))
    else
      var target := next.(generation := current.state.generation + 1);
      match EncodeRecord(target)
      case None => (s, Err(CorruptRecords))
      case Some(record) => Write(s, if current.copy.None? then First else current.copy.value.Other(), record, f)
  }

  function StageUpdate(s: Store, slot: SystemSlot, baseline: Fate, f: Fate): (Store, Result<(), BootError>) {
    match CurrentOf(s)
    case Err(e) => (s, Err(e))
    case Ok(current) =>
      if current.state.pending.Some? then (s, Err(UpdateAlreadyPending))
      else if slot == current.state.confirmed then (s, Err(CannotUpdateConfirmedSlot))
      else if current.copy.Some? then Persist(s, current, Staged(current.state, slot), f)
      else
        match Persist(s, current, current.state, baseline)
        case (s1, Err(e)) => (s1, Err(e))
        case (s1, Ok(_)) =>
          match CurrentOf(s1)
          case Err(e) => (s1, Err(e))
          case Ok(durable) => Persist(s1, durable, Staged(durable.state, slot), f)
  }

  function Staged(s: BootState, slot: SystemSlot): BootState {
    s.(pending := Some(slot), attempts := 0)
  }

  datatype BootDecision = BootDecision(slot: SystemSlot, trialAttempt: nat, rolledBack: bool)

  function BeginBoot(s: Store, f: Fate): (Store, Result<BootDecision, BootError>) {
    match CurrentOf(s)
    case Err(e) => (s, Err(e))
    case Ok(current) =>
      var state := current.state;
      if state.pending.None? then (s, Ok(BootDecision(state.confirmed, 0, false)))
      else if state.attempts >= MAX_BOOT_ATTEMPTS then
        match Persist(s, current, state.(pending := None, attempts := 0), f)
        case (s', Err(e)) => (s', Err(e))
        case (s', Ok(_)) => (s', Ok(BootDecision(state.confirmed, 0, true)))
      else
        match Persist(s, current, state.(attempts := state.attempts + 1), f)
        case (s', Err(e)) => (s', Err(e))
        case (s', Ok(_)) => (s', Ok(BootDecision(state.pending.value, state.attempts + 1, false)))
  }

  function MarkBootSuccess(s: Store, slot: SystemSlot, f: Fate): (Store, Result<(), BootError>) {
    match CurrentOf(s)
    case Err(e) => (s, Err(e))
    case Ok(current) =>
      var state := current.state;
      if state.pending == Some(slot) then Persist(s, current, state.(confirmed := slot, pending := None, attempts := 0), f)
      else if state.pending.None? && state.confirmed == slot then (s, Ok(()))
      else (s, Err(UnexpectedBootSuccess))
  }

  // ----- Recovery -----

  /** At most one copy claims to be the newest. */
  predicate Sound(s: Store) {
    s.Read(First).Some? && s.Read(Second).Some? ==> s.Read(First).value.generation != s.Read(Second).value.generation
  }

  /** The state `load` reports once some record is durable. */
  predicate Holds(s: Store, state: BootState) {
    Sound(s) && CurrentOf(s).Ok? && CurrentOf(s).value.copy.Some? && CurrentOf(s).value.state == state
  }

  lemma HeldValid(s: Store, state: BootState)
    requires Holds(s, state)
    ensures ValidState(state) && state.generation <= U64_MAX
  {
    EncodesDecoded(s.At(CurrentOf(s).value.copy.value).value);
  }

  /** What one write may leave behind: the old state, or the next one a generation later. */
  predicate OldOrNew(s: Store, before: BootState, next: BootState, completed: bool) {
    || (Holds(s, before) && !completed)
    || Holds(s, next.(generation := before.generation + 1))
  }

  /** However the write ends, `load` finds the state before it or the state after
      it, and a completed write is found. */
  lemma PersistRecovers(s: Store, state: BootState, next: BootState, f: Fate)
    requires Holds(s, state) && ValidState(next)
    ensures var (s', r) := Persist(s, CurrentOf(s).value, next, f);
            && OldOrNew(s', state, next, r.Ok?)
            && (state.generation == U64_MAX ==> s' == s && r == Err(GenerationExhausted))
            && (r.Ok? <==> state.generation < U64_MAX && f == Done)
  {
    hide DecodeRecord;
    hide EncodeRecord;
    HeldValid(s, state);
    if state.generation < U64_MAX {
      EncodedRead(next.(generation := state.generation + 1));
    }
  }

  lemma EncodedRead(target: BootState)
    requires ValidState(target) && target.generation <= U64_MAX
    ensures EncodeRecord(target).Some?
    ensures forall s: Store, c: RecordCopy {:trigger s.Put(c, EncodeRecord(target))} ::
              s.Put(c, EncodeRecord(target)).Read(c) == Some(target) && s.Put(c, EncodeRecord(target)).Read(c.Other()) == s.Read(c.Other())
  {
    hide DecodeRecord;
    hide EncodeRecord;
    assert EncodeRecord(target).Some? by {
      EncodeSome(target);
    }
    DecodesEncoded(target);
  }

  lemma EncodeSome(target: BootState)
    requires ValidState(target)
    ensures EncodeRecord(target).Some?
  {
  }

  // ----- The three operations, however their writes end -----

  function Load(s: Store): Result<BootState, BootError> {
    match CurrentOf(s)
    case Err(e) => Err(e)
    case Ok(c) => Ok(c.state)
  }

  /** Equal up to the generation. */
  predicate Same(x: BootState, y: BootState) {
    x.(generation := y.generation) == y
  }

  /** An operation aimed at `goal` left the old state or the goal; a completed one
      left the goal, and every change of state raised the generation. */
  predicate Moved(s: Store, s': Store, goal: BootState, completed: bool) {
    && Load(s').Ok? && Load(s).Ok?
    && Load(s').value.generation >= Load(s).value.generation
    && ((Same(Load(s').value, Load(s).value) && !completed)
        || (Same(Load(s').value, goal) && Load(s').value.generation > Load(s).value.generation))
  }

  /** The journal either has nothing, or has a record that reads back. */
  lemma SoundCases(s: Store)
    requires Sound(s)
    ensures CurrentOf(s).Ok? ==> if CurrentOf(s).value.copy.None? then s == Store(None, None) && Load(s).value == Initial() else Holds(s, Load(s).value)
  {
    hide DecodeRecord;
  }

  lemma PersistMoves(s: Store, next: BootState, f: Fate)
    requires Sound(s) && CurrentOf(s).Ok? && CurrentOf(s).value.copy.Some? && ValidState(next)
    ensures var (s', r) := Persist(s, CurrentOf(s).value, next, f);
            Sound(s') && Moved(s, s', next, r.Ok?) && CurrentOf(s').value.copy.Some?
  {
    hide Persist;
    hide CurrentOf;
    hide Sound;
    PersistRecovers(s, Load(s).value, next, f);
  }

  lemma LoadedValid(s: Store)
    requires Sound(s) && Load(s).Ok?
    ensures ValidState(Load(s).value)
  {
    SoundCases(s);
    if CurrentOf(s).value.copy.Some? {
      HeldValid(s, Load(s).value);
    }
  }

  /** The first write ever made: the baseline. Interrupted, it leaves the initial
      state, the baseline, or a journal that refuses to load, never a pending slot. */
  lemma BaselineCutShort(s: Store, f: Fate)
    requires s == Store(None, None)
    ensures var (s', r) := Persist(s, CurrentOf(s).value, Initial(), f);
            && Sound(s')
            && (s' == s || Load(s') == Err(CorruptRecords) || Holds(s', Initial().(generation := 1)))
            && (r.Ok? ==> Holds(s', Initial().(generation := 1)))
  {
    hide DecodeRecord;
    hide EncodeRecord;
    EncodedRead(Initial().(generation := 1));
  }

  lemma StageMoves(s: Store, slot: SystemSlot, baseline: Fate, f: Fate)
    requires Sound(s) && Load(s).Ok? && Load(s).value.pending.None? && slot != Load(s).value.confirmed
    ensures var (s', r) := StageUpdate(s, slot, baseline, f);
            && Sound(s')
            && ((Load(s') == Err(CorruptRecords) && s == Store(None, None) && baseline.Torn? && r.Err?)
                || Moved(s, s', Staged(Load(s).value, slot), r.Ok?))
  {
    hide Persist;
    hide CurrentOf;
    hide Sound;
    LoadedValid(s);
    SoundCases(s);
    var current := CurrentOf(s).value;
    if current.copy.Some? {
      PersistMoves(s, Staged(current.state, slot), f);
    } else {
      BaselineCutShort(s, baseline);
      BaselineTorn(s, baseline);
      var (s1, r1) := Persist(s, current, current.state, baseline);
      if r1.Ok? {
        PersistMoves(s1, Staged(Load(s1).value, slot), f);
      }
    }
  }

  lemma BaselineTorn(s: Store, f: Fate)
    requires s == Store(None, None)
    ensures var s' := Persist(s, CurrentOf(s).value, Initial(), f).0;
            Load(s').Err? ==> f.Torn?
  {
    hide DecodeRecord;
    hide EncodeRecord;
    EncodedRead(Initial().(generation := 1));
  }

  lemma BeginMoves(s: Store, f: Fate)
    requires Sound(s) && Load(s).Ok?
    ensures var (s', r) := BeginBoot(s, f);
            var st := Load(s).value;
            && Sound(s')
            && (st.pending.None? ==> s' == s && r == Ok(BootDecision(st.confirmed, 0, false)))
            && (st.pending.Some? && st.attempts >= MAX_BOOT_ATTEMPTS ==>
                  && Moved(s, s', st.(pending := None, attempts := 0), r.Ok?)
                  && (r.Ok? ==> r.value == BootDecision(st.confirmed, 0, true)))
            && (st.pending.Some? && st.attempts < MAX_BOOT_ATTEMPTS ==>
                  && Moved(s, s', st.(attempts := st.attempts + 1), r.Ok?)
                  && (r.Ok? ==> r.value == BootDecision(st.pending.value, st.attempts + 1, false)))
  {
    hide Persist;
    hide Sound;
    hide CurrentOf;
    LoadedValid(s);
    SoundCases(s);
    var st := Load(s).value;
    if st.pending.Some? {
      PersistMoves(s, if st.attempts >= MAX_BOOT_ATTEMPTS then st.(pending := None, attempts := 0) else st.(attempts := st.attempts + 1), f);
    }
  }

  lemma MarkMoves(s: Store, slot: SystemSlot, f: Fate)
    requires Sound(s) && Load(s).Ok?
    ensures var (s', r) := MarkBootSuccess(s, slot, f);
            var st := Load(s).value;
            && Sound(s')
            && (st.pending == Some(slot) ==> Moved(s, s', st.(confirmed := slot, pending := None, attempts := 0), r.Ok?))
            && (st.pending != Some(slot) ==> s' == s && (r.Ok? <==> st.pending.None? && st.confirmed == slot))
  {
    hide Persist;
    hide Sound;
    hide CurrentOf;
    LoadedValid(s);
    SoundCases(s);
    var st := Load(s).value;
    if st.pending == Some(slot) {
      PersistMoves(s, st.(confirmed := slot, pending := None, attempts := 0), f);
    }
  }

  // ----- Whole runs of the journal -----

  datatype JournalOp =
    | StageOp(slot: SystemSlot, baseline: Fate, f: Fate)
    | BeginOp(f: Fate)
    | MarkOp(slot: SystemSlot, f: Fate)

  function Apply(s: Store, op: JournalOp): (Store, bool) {
    match op
    case StageOp(slot, baseline, f) => var (s', r) := StageUpdate(s, slot, baseline, f); (s', r.Ok?)
    case BeginOp(f) => var (s', r) := BeginBoot(s, f); (s', r.Ok?)
    case MarkOp(slot, f) => var (s', r) := MarkBootSuccess(s, slot, f); (s', r.Ok?)
  }

  /** What the operation is meant to make of the state. */
  function Intended(st: BootState, op: JournalOp): BootState {
    match op
    case StageOp(slot, _, _) => if st.pending.None? && slot != st.confirmed then Staged(st, slot) else st
    case BeginOp(_) =>
      if st.pending.None? then st
      else if st.attempts >= MAX_BOOT_ATTEMPTS then st.(pending := None, attempts := 0)
      else st.(attempts := st.attempts + 1)
    case MarkOp(slot, _) => if st.pending == Some(slot) then st.(confirmed := slot, pending := None, attempts := 0) else st
  }

  /** Once one record is durable, each operation leaves `load` at the state before
      it or at the state it was meant to reach, and a completed change is found. */
  lemma BeforeOrAfter(s: Store, op: JournalOp)
    requires Sound(s) && Load(s).Ok? && s != Store(None, None)
    ensures var (s', ok) := Apply(s, op);
            && Sound(s') && Load(s').Ok? && s' != Store(None, None)
            && (s' == s || Moved(s, s', Intended(Load(s).value, op), ok))
            && (ok && !Same(Intended(Load(s).value, op), Load(s).value) ==> s' != s)
  {
    hide Persist;
    hide Sound;
    hide CurrentOf;
    SoundCases(s);
    NeverEmptied(s, op);
    var st := Load(s).value;
    match op
    case StageOp(slot, baseline, f) =>
      if st.pending.None? && slot != st.confirmed {
        StageMoves(s, slot, baseline, f);
      }
    case BeginOp(f) => BeginMoves(s, f);
    case MarkOp(slot, f) => MarkMoves(s, slot, f);
  }

  lemma NeverEmptied(s: Store, op: JournalOp)
    requires s != Store(None, None)
    ensures Apply(s, op).0 != Store(None, None)
  {
    hide EncodeRecord;
    hide CurrentOf;
  }

  function RunJournal(s: Store, ops: seq<JournalOp>): Store
    decreases |ops|
  {
    if ops == [] then s else RunJournal(Apply(s, ops[0]).0, ops[1..])
  }

  /** Completed operations that changed the state. */
  function Changes(s: Store, ops: seq<JournalOp>): nat
    decreases |ops|
  {
    if ops == [] || Load(s).Err? then 0
    else
      var (s', ok) := Apply(s, ops[0]);
      (if ok && !Same(Intended(Load(s).value, ops[0]), Load(s).value) then 1 else 0) + Changes(s', ops[1..])
  }

  /** Any number of interrupted operations leaves a journal that loads, and every
      completed change costs at least one generation. */
  lemma {:induction false} JournalSurvives(s: Store, ops: seq<JournalOp>)
    requires Sound(s) && Load(s).Ok? && s != Store(None, None)
    ensures Sound(RunJournal(s, ops)) && Load(RunJournal(s, ops)).Ok?
    ensures Load(RunJournal(s, ops)).value.generation >= Load(s).value.generation + Changes(s, ops)
    decreases |ops|
  {
    hide Sound;
    hide Load;
    hide Apply;
    hide Intended;
    if ops != [] {
      BeforeOrAfter(s, ops[0]);
      JournalSurvives(Apply(s, ops[0]).0, ops[1..]);
    }
  }

  /** The journal as the loader drives it. */
  class BootControlJournal {
    var store: Store

    constructor (store: Store)
      ensures this.store == store
    {
      this.store := store;
    }

    /** Scan both copies, then keep the newest valid one. */
    method ReadCurrent() returns (r: Result<Current, BootError>)
      ensures r == CurrentOf(store)
    {
      hide DecodeRecord;
      var copies := [First, Second];
      var decoded: seq<Option<BootState>> := [];
      var present := false;
      for i := 0 to 2
        invariant |decoded| == i && forall k :: 0 <= k < i ==> decoded[k] == store.Read(copies[k])
        invariant present <==> exists k :: 0 <= k < i && store.At(copies[k]).Some?
      {
        var bytes := store.At(copies[i]);
        var state := None;
        if bytes.Some? {
          present := true;
          if |bytes.value| == RECORD_SIZE {
            state := ReadRecord(bytes.value);
          }
        }
        decoded := decoded + [state];
      }
      assert present <==> store.At(copies[0]).Some? || store.At(copies[1]).Some?;
      assert decoded[0] == store.Read(First) && decoded[1] == store.Read(Second);
      if decoded[0].None? && decoded[1].None? {
        r := if present then Err(CorruptRecords) else Ok(Current(Initial(), None));
      } else if decoded[1].None? {
        r := Ok(Current(decoded[0].value, Some(First)));
      } else if decoded[0].None? {
        r := Ok(Current(decoded[1].value, Some(Second)));
      } else if decoded[0].value.generation == decoded[1].value.generation {
        r := if decoded[0] == decoded[1] then Ok(Current(decoded[0].value, Some(First))) else Err(CorruptRecords);
      } else if decoded[0].value.generation > decoded[1].value.generation {
        r := Ok(Current(decoded[0].value, Some(First)));
      } else {
        r := Ok(Current(decoded[1].value, Some(Second)));
      }
    }

    /** Write the next state beside the current one: the current copy stays as it is,
        so whatever the write does, the journal holds the state before or after. */
    method PersistNext(current: Current, next: BootState, f: Fate) returns (r: Result<(), BootError>)
      modifies this
      ensures (store, r) == Persist(old(store), current, next, f)
      ensures current.copy.Some? ==> store.At(current.copy.value) == old(store).At(current.copy.value)
      ensures CurrentOf(old(store)) == Ok(current) && Holds(old(store), current.state) && ValidState(next) ==>
                OldOrNew(store, current.state, next, r.Ok?)
    {
      hide EncodeRecord;
      hide DecodeRecord;
      if CurrentOf(store) == Ok(current) && Holds(store, current.state) && ValidState(next) {
        PersistRecovers(store, current.state, next, f);
      }
      if current.state.generation >= U64_MAX {
        return Err(GenerationExhausted);
      }
      var record := FillRecord(next.(generation := current.state.generation + 1));
      if record.None? {
        return Err(CorruptRecords);
      }
      var destination := if current.copy.None? then First else current.copy.value.Other();
      var (s, outcome) := Write(store, destination, record.value, f);
      store := s;
      r := outcome;
    }

    method Stage(slot: SystemSlot, baseline: Fate, f: Fate) returns (r: Result<(), BootError>)
      modifies this
      ensures (store, r) == StageUpdate(old(store), slot, baseline, f)
    {
      hide Persist;
      hide CurrentOf;
      var found := ReadCurrent();
      if found.Err? {
        return Err(found.error);
      }
      var current := found.value;
      if current.state.pending.Some? {
        return Err(UpdateAlreadyPending);
      }
      if slot == current.state.confirmed {
        return Err(CannotUpdateConfirmedSlot);
      }
      if current.copy.None? {
        var made := PersistNext(current, current.state, baseline);
        if made.Err? {
          return Err(made.error);
        }
        found := ReadCurrent();
        if found.Err? {
          return Err(found.error);
        }
        current := found.value;
      }
      r := PersistNext(current, Staged(current.state, slot), f);
    }

    method Begin(f: Fate) returns (r: Result<BootDecision, BootError>)
      modifies this
      ensures (store, r) == BeginBoot(old(store), f)
    {
      hide Persist;
      hide CurrentOf;
      var found := ReadCurrent();
      if found.Err? {
        return Err(found.error);
      }
      var state := found.value.state;
      if state.pending.None? {
        return Ok(BootDecision(state.confirmed, 0, false));
      }
      if state.attempts >= MAX_BOOT_ATTEMPTS {
        var cleared := PersistNext(found.value, state.(pending := None, attempts := 0), f);
        return if cleared.Err? then Err(cleared.error) else Ok(BootDecision(state.confirmed, 0, true));
      }
      var counted := PersistNext(found.value, state.(attempts := state.attempts + 1), f);
      r := if counted.Err? then Err(counted.error) else Ok(BootDecision(state.pending.value, state.attempts + 1, false));
    }

    method Confirm(slot: SystemSlot, f: Fate) returns (r: Result<(), BootError>)
      modifies this
      ensures (store, r) == MarkBootSuccess(old(store), slot, f)
    {
      hide Persist;
      hide CurrentOf;
      var found := ReadCurrent();
      if found.Err? {
        return Err(found.error);
      }
      var state := found.value.state;
      if state.pending == Some(slot) {
        r := PersistNext(found.value, state.(confirmed := slot, pending := None, attempts := 0), f);
      } else if state.pending.None? && state.confirmed == slot {
        r := Ok(());
      } else {
        r := Err(UnexpectedBootSuccess);
      }
    }
  }
}
