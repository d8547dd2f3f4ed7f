/**
 * The settings service itself: a secret store, a settings file and a cached snapshot, all
 * changed by one update at a time. The methods are proved against the functions of
 * SettingsSecrets and SettingsTransaction; the theorems about whole updates and whole runs
 * are lemmas about `UpdateWorld` and `Run`.
 */
module SettingsService {
  import opened Options
  import opened JsValues
  import opened SecretNames
  import opened SettingsSecrets
  import opened SettingsTheorems
  import opened SettingsTransaction

  // ---------------------------------------------------------------- the update as a function

  datatype ReadRun = ReadRun(ok: bool, clock: nat)

  function ReadOne(plan: Plan, r: ReadRun): ReadRun {
    if r.ok then ReadRun(plan(r.clock).Done?, r.clock + 1) else r
  }

  /** The store reads materialising makes, up to the first one that fails. */
  function VariableReads(plan: Plan, r: ReadRun, os: seq<Owned>): ReadRun {
    if os == [] then r
    else
      var o, before := os[|os| - 1], VariableReads(plan, r, os[..|os| - 1]);
      if o.v.sensitive && o.v.Marked() then ReadOne(plan, before) else before
  }

  function SourceReads(plan: Plan, r: ReadRun, es: seq<Entry<Source>>): ReadRun {
    if es == [] then r
    else
      var e, before := es[|es| - 1], SourceReads(plan, r, es[..|es| - 1]);
      if e.item.managementKey == KEY_REDACTED then ReadOne(plan, before) else before
  }

  function Reads(plan: Plan, clock: nat, s: Settings): ReadRun {
    SourceReads(plan, VariableReads(plan, ReadRun(true, clock), AllOwned(s.instances)), s.sources)
  }

  datatype World = World(store: Secrets, clock: nat, file: Settings, cache: Settings)

  /** `applied` and `undoFrom` say which changes were undone, starting at which tick. */
  datatype Report = Report(world: World, result: Option<Settings>, applied: seq<Undo>, undoFrom: nat)

  /** What a client asks for, with the outcomes of encoding the settings and writing the file. */
  datatype Request = Request(update: Settings -> Option<Settings>, encodes: bool, fileOutcome: Outcome)

  function RolledBack(plan: Plan, w: World, applied: seq<Undo>): Report {
    Report(w.(store := Undone(plan, w.store, w.clock, applied), clock := w.clock + |applied|),
           None, applied, w.clock)
  }

  /** The uninterruptible part: apply the changes, read the settings back, write the file. */
  function Transact(plan: Plan, w: World, changes: seq<Change>, stored: Settings, fileOutcome: Outcome): Report {
    var t := Attempt(plan, w.store, w.clock, changes);
    var tried := w.(store := t.store, clock := t.clock);
    if !t.ok then RolledBack(plan, tried, t.applied)
    else
      var r := Reads(plan, t.clock, stored);
      var read := tried.(clock := r.clock);
      if !r.ok || fileOutcome.Refused? then RolledBack(plan, read, t.applied)
      else if fileOutcome.Torn? then RolledBack(plan, read.(file := stored), t.applied)
      else Report(read.(file := stored), Some(Materialised(t.store, stored)), [], r.clock)
  }

  function UpdateWorld(plan: Plan, w: World, req: Request): Report {
    match req.update(w.cache)
    case None => Report(w, None, [], w.clock)
    case Some(next) =>
      if !req.encodes then Report(w, None, [], w.clock)
      else
        var stored := Folded(Persisted(w.cache, next));
        var r := Transact(plan, w, Changes(w.cache, next), stored, req.fileOutcome);
        if r.result.None? then r else r.(world := r.world.(cache := stored))
  }

  // ---------------------------------------------------------------- failed updates

  /** The trial did not stop at a torn write of a new text to a name it had not changed yet. */
  predicate Recoverable(plan: Plan, store: Secrets, clock: nat, changes: seq<Change>) {
    var t := Attempt(plan, store, clock, changes);
    var i := |t.applied|;
    TornAt(plan, clock, changes, i)
    ==> Named(t.applied, changes[i].name) || Lookup(store, changes[i].name) == Some(changes[i].text)
  }

  /** A failed update leaves the cache alone, and the file unless the write of the file was torn. */
  lemma FailedUpdateKeepsSettings(plan: Plan, w: World, req: Request)
    requires UpdateWorld(plan, w, req).result.None?
    ensures UpdateWorld(plan, w, req).world.cache == w.cache
    ensures !req.fileOutcome.Torn? ==> UpdateWorld(plan, w, req).world.file == w.file
  {
  }

  lemma FailedTransaction(plan: Plan, w: World, changes: seq<Change>, stored: Settings, fileOutcome: Outcome)
    requires Transact(plan, w, changes, stored, fileOutcome).result.None?
    ensures var r, t := Transact(plan, w, changes, stored, fileOutcome), Attempt(plan, w.store, w.clock, changes);
            r.applied == t.applied && r.world.store == Undone(plan, t.store, r.undoFrom, t.applied)
  {
  }

  /** However an update fails, its store is that of the trial with the recorded undos attempted. */
  lemma FailedUpdateIsUndone(plan: Plan, w: World, req: Request, next: Settings)
    requires req.update(w.cache) == Some(next) && req.encodes
    requires UpdateWorld(plan, w, req).result.None?
    ensures var r, t := UpdateWorld(plan, w, req), Attempt(plan, w.store, w.clock, Changes(w.cache, next));
            r.applied == t.applied && r.world.store == Undone(plan, t.store, r.undoFrom, t.applied)
  {
    FailedTransaction(plan, w, Changes(w.cache, next), Folded(Persisted(w.cache, next)), req.fileOutcome);
  }

  /** How many changes of a failed update the name `n` still bears the mark of. */
  function Left(plan: Plan, w: World, req: Request, next: Settings, n: string): (p: nat)
    ensures p <= |Changes(w.cache, next)|
  {
    Surviving(plan, w.store, w.clock, Changes(w.cache, next), UpdateWorld(plan, w, req).undoFrom, n)
  }

  /**
   * What a failed update leaves in the store, name by name, for every pattern of failures
   * among its changes, its reads, the file write and its undos.
   */
  lemma FailedUpdateLeaves(plan: Plan, w: World, req: Request, next: Settings, n: string)
    requires req.update(w.cache) == Some(next) && req.encodes
    requires UpdateWorld(plan, w, req).result.None?
    ensures Lookup(UpdateWorld(plan, w, req).world.store, n)
            == After(Lookup(w.store, n), Effect(Changes(w.cache, next)[..Left(plan, w, req, next, n)], n))
  {
    FailedUpdateIsUndone(plan, w, req, next);
    RollbackOutcome(plan, w.store, w.clock, Changes(w.cache, next), UpdateWorld(plan, w, req).undoFrom, n);
  }

  /**
   * Atomicity: when its undos work, a failed update leaves the whole store as it was exactly
   * when its trial was recoverable.
   */
  lemma FailedUpdate(plan: Plan, w: World, req: Request, next: Settings)
    requires req.update(w.cache) == Some(next) && req.encodes
    requires UpdateWorld(plan, w, req).result.None?
    requires var r := UpdateWorld(plan, w, req); UndosWork(plan, r.undoFrom, r.applied)
    ensures UpdateWorld(plan, w, req).world.store == w.store
            <==> Recoverable(plan, w.store, w.clock, Changes(w.cache, next))
  {
    var r := UpdateWorld(plan, w, req);
    FailedUpdateIsUndone(plan, w, req, next);
    RollbackExactly(plan, w.store, w.clock, Changes(w.cache, next), r.undoFrom);
  }

  /** A trial that went through is always recoverable, so later failures undo it completely. */
  lemma LateFailureRestores(plan: Plan, w: World, req: Request, next: Settings)
    requires req.update(w.cache) == Some(next) && req.encodes
    requires Attempt(plan, w.store, w.clock, Changes(w.cache, next)).ok
    requires UpdateWorld(plan, w, req).result.None?
    requires var r := UpdateWorld(plan, w, req); UndosWork(plan, r.undoFrom, r.applied)
    ensures UpdateWorld(plan, w, req).world.store == w.store
  {
    AttemptShape(plan, w.store, w.clock, Changes(w.cache, next));
    FailedUpdate(plan, w, req, next);
  }

  /**
   * A failed update need not restore the store: whenever its first secret write is torn, the
   * new secret stays behind although nothing was recorded to undo.
   */
  lemma TornWriteStays(plan: Plan, w: World, req: Request)
    requires w.store == map[] && w.cache == Settings([], [], "")
    requires req.encodes && req.update(w.cache) == Some(Settings([], [Entry("s", Source("key", ""))], ""))
    requires plan(w.clock).Done? && plan(w.clock + 1).Torn?
    ensures var r := UpdateWorld(plan, w, req);
            r.result.None? && r.applied == [] && r.world.store == map[SourceName("s") := "key"]
  {
    var e := Entry("s", Source("key", ""));
    var next := req.update(w.cache).value;
    var c := Write(SourceName("s"), "key");
    OneSourceChanges(w.cache, next, e);
    TornAtOnce(plan, w.store, w.clock, c);
    FailedTransaction(plan, w, [c], Folded(Persisted(w.cache, next)), req.fileOutcome);
  }

  lemma TornAtOnce(plan: Plan, store: Secrets, clock: nat, c: Change)
    requires c.Write? && plan(clock).Done? && plan(clock + 1).Torn?
    ensures var t := Attempt(plan, store, clock, [c]);
            !t.ok && t.applied == [] && t.store == store[c.name := c.text]
  {
    assert [c][..0] == [];
    assert Attempt(plan, store, clock, [c]) == Step(plan, Trial(store, clock, [], true), c);
  }

  lemma OneSourceChanges(cur: Settings, next: Settings, e: Entry<Source>)
    requires cur == Settings([], [], "") && next == Settings([], [e], "") && SourcePuts(e)
    ensures Changes(cur, next) == [Write(SourceName(e.id), e.item.managementKey)]
  {
    assert [e][..0] == [];
    assert StaleSources([e], []) == [];
    assert SourceWrites([e]) == SourceWrites([]) + [Write(SourceName(e.id), e.item.managementKey)];
    assert SourceRemovals([e]) == SourceRemovals([]);
    assert AllOwned([]) == [];
  }

  // ---------------------------------------------------------------- successful updates

  lemma SuccessfulTransaction(plan: Plan, w: World, changes: seq<Change>, stored: Settings, fileOutcome: Outcome)
    requires Transact(plan, w, changes, stored, fileOutcome).result.Some?
    ensures var r := Transact(plan, w, changes, stored, fileOutcome);
            && r.world.file == stored && r.world.store == Applied(w.store, changes)
            && r.result == Some(Materialised(r.world.store, stored))
  {
    AttemptShape(plan, w.store, w.clock, changes);
    AttemptStore(plan, w.store, w.clock, changes);
    assert changes[..|changes|] == changes;
  }

  /**
   * A successful update persists no secret text, leaves file and cache equal, applies every
   * change, and hands back what materialising the new settings gives.
   */
  lemma SuccessfulUpdate(plan: Plan, w: World, req: Request, next: Settings)
    requires req.update(w.cache) == Some(next)
    requires UpdateWorld(plan, w, req).result.Some?
    ensures var w' := UpdateWorld(plan, w, req).world;
            && w'.file == w'.cache == Folded(Persisted(w.cache, next))
            && w'.store == Applied(w.store, Changes(w.cache, next))
            && NoPlaintext(w'.file)
            && UpdateWorld(plan, w, req).result == Some(Materialised(w'.store, w'.cache))
  {
    SuccessfulTransaction(plan, w, Changes(w.cache, next), Folded(Persisted(w.cache, next)), req.fileOutcome);
    FoldKeepsNoPlaintext(Persisted(w.cache, next));
    PersistedHasNoPlaintext(w.cache, next);
  }

  ghost predicate AllDone(plan: Plan, from: nat, to: nat) {
    forall t: nat :: from <= t < to ==> plan(t).Done?
  }

  lemma {:induction false} AttemptSucceeds(plan: Plan, store: Secrets, clock: nat, changes: seq<Change>)
    ensures Attempt(plan, store, clock, changes).ok <==> AllDone(plan, clock, clock + 2 * |changes|)
  {
    if changes != [] {
      var front := changes[..|changes| - 1];
      AttemptSucceeds(plan, store, clock, front);
      AttemptShape(plan, store, clock, front);
      var last: nat := clock + 2 * |front|;
      assert AllDone(plan, clock, last + 2) <==> AllDone(plan, clock, last) && plan(last).Done? && plan(last + 1).Done?;
    }
  }

  /** How many secrets reading variables back asks the store for. */
  function VariableCalls(os: seq<Owned>): nat {
    if os == [] then 0
    else
      var o := os[|os| - 1];
      VariableCalls(os[..|os| - 1]) + if o.v.sensitive && o.v.Marked() then 1 else 0
  }

  function SourceCalls(es: seq<Entry<Source>>): nat {
    if es == [] then 0
    else SourceCalls(es[..|es| - 1]) + if es[|es| - 1].item.managementKey == KEY_REDACTED then 1 else 0
  }

  lemma {:induction false} VariableReadsSucceed(plan: Plan, r: ReadRun, os: seq<Owned>)
    ensures var run := VariableReads(plan, r, os);
            && (run.ok <==> r.ok && AllDone(plan, r.clock, r.clock + VariableCalls(os)))
            && (run.ok ==> run.clock == r.clock + VariableCalls(os))
  {
    if os != [] {
      VariableReadsSucceed(plan, r, os[..|os| - 1]);
      NextDone(plan, r.clock, r.clock + VariableCalls(os[..|os| - 1]));
    }
  }

  lemma {:induction false} SourceReadsSucceed(plan: Plan, r: ReadRun, es: seq<Entry<Source>>)
    ensures var run := SourceReads(plan, r, es);
            && (run.ok <==> r.ok && AllDone(plan, r.clock, r.clock + SourceCalls(es)))
            && (run.ok ==> run.clock == r.clock + SourceCalls(es))
  {
    if es != [] {
      SourceReadsSucceed(plan, r, es[..|es| - 1]);
      NextDone(plan, r.clock, r.clock + SourceCalls(es[..|es| - 1]));
    }
  }

  lemma NextDone(plan: Plan, from: nat, to: nat)
    requires from <= to
    ensures AllDone(plan, from, to + 1) <==> AllDone(plan, from, to) && plan(to).Done?
  {
  }

  function ReadCalls(s: Settings): nat {
    VariableCalls(AllOwned(s.instances)) + SourceCalls(s.sources)
  }

  lemma ReadsSucceed(plan: Plan, clock: nat, s: Settings)
    ensures Reads(plan, clock, s).ok <==> AllDone(plan, clock, clock + ReadCalls(s))
  {
    var os, es := AllOwned(s.instances), s.sources;
    var run := VariableReads(plan, ReadRun(true, clock), os);
    VariableReadsSucceed(plan, ReadRun(true, clock), os);
    SourceReadsSucceed(plan, run, es);
    DoneInParts(plan, clock, clock + VariableCalls(os), clock + VariableCalls(os) + SourceCalls(es));
  }

  /** The store calls a successful transaction makes: two for each change, one for each secret read back. */
  function Calls(changes: seq<Change>, stored: Settings): nat {
    2 * |changes| + ReadCalls(stored)
  }

  lemma TransactNeeds(plan: Plan, w: World, changes: seq<Change>, stored: Settings, fileOutcome: Outcome)
    ensures Transact(plan, w, changes, stored, fileOutcome).result.Some?
            <==> var t := Attempt(plan, w.store, w.clock, changes);
                 t.ok && Reads(plan, t.clock, stored).ok && fileOutcome.Done?
  {
  }

  lemma TransactSucceeds(plan: Plan, w: World, changes: seq<Change>, stored: Settings, fileOutcome: Outcome)
    ensures Transact(plan, w, changes, stored, fileOutcome).result.Some?
            <==> fileOutcome.Done? && AllDone(plan, w.clock, w.clock + Calls(changes, stored))
  {
    TransactNeeds(plan, w, changes, stored, fileOutcome);
    var t := Attempt(plan, w.store, w.clock, changes);
    AttemptSucceeds(plan, w.store, w.clock, changes);
    AttemptShape(plan, w.store, w.clock, changes);
    ReadsSucceed(plan, t.clock, stored);
    var a: nat := w.clock + 2 * |changes|;
    DoneInParts(plan, w.clock, a, a + ReadCalls(stored));
  }

  /**
   * An update succeeds exactly when the request is accepted and encoded, the file is written
   * and none of the store calls it makes fails.
   */
  lemma UpdateSucceedsExactly(plan: Plan, w: World, req: Request)
    ensures UpdateWorld(plan, w, req).result.Some?
            <==> && req.update(w.cache).Some? && req.encodes && req.fileOutcome.Done?
                 && var next := req.update(w.cache).value;
                    AllDone(plan, w.clock, w.clock + Calls(Changes(w.cache, next), Folded(Persisted(w.cache, next))))
  {
    if req.update(w.cache).Some? {
      var next := req.update(w.cache).value;
      TransactSucceeds(plan, w, Changes(w.cache, next), Folded(Persisted(w.cache, next)), req.fileOutcome);
    }
  }

  // ---------------------------------------------------------------- where a failing update stops

  /** The calls from one tick up to the other were made in turn, and only the last one failed. */
  ghost predicate FirstFailure(plan: Plan, from: nat, to: nat) {
    from < to && AllDone(plan, from, to - 1) && !plan(to - 1).Done?
  }

  lemma StepFails(plan: Plan, t: Trial, c: Change)
    requires t.ok && !Step(plan, t, c).ok
    ensures FirstFailure(plan, t.clock, Step(plan, t, c).clock)
  {
  }

  lemma {:induction false} AttemptFails(plan: Plan, store: Secrets, clock: nat, changes: seq<Change>)
    requires !Attempt(plan, store, clock, changes).ok
    ensures FirstFailure(plan, clock, Attempt(plan, store, clock, changes).clock)
  {
    var front := changes[..|changes| - 1];
    var t := Attempt(plan, store, clock, front);
    if t.ok {
      AttemptSucceeds(plan, store, clock, front);
      AttemptShape(plan, store, clock, front);
      StepFails(plan, t, changes[|changes| - 1]);
      DoneInParts(plan, clock, t.clock, Attempt(plan, store, clock, changes).clock - 1);
    } else {
      AttemptFails(plan, store, clock, front);
    }
  }

  lemma {:induction false} VariableReadsFail(plan: Plan, r: ReadRun, os: seq<Owned>)
    requires r.ok && !VariableReads(plan, r, os).ok
    ensures FirstFailure(plan, r.clock, VariableReads(plan, r, os).clock)
  {
    var front := os[..|os| - 1];
    VariableReadsSucceed(plan, r, front);
    if !VariableReads(plan, r, front).ok {
      VariableReadsFail(plan, r, front);
    }
  }

  lemma {:induction false} SourceReadsFail(plan: Plan, r: ReadRun, es: seq<Entry<Source>>)
    requires r.ok && !SourceReads(plan, r, es).ok
    ensures FirstFailure(plan, r.clock, SourceReads(plan, r, es).clock)
  {
    var front := es[..|es| - 1];
    SourceReadsSucceed(plan, r, front);
    if !SourceReads(plan, r, front).ok {
      SourceReadsFail(plan, r, front);
    }
  }

  lemma {:induction false} FailedReadsStay(plan: Plan, r: ReadRun, es: seq<Entry<Source>>)
    requires !r.ok
    ensures SourceReads(plan, r, es) == r
  {
    if es != [] {
      FailedReadsStay(plan, r, es[..|es| - 1]);
    }
  }

  lemma ReadsEnd(plan: Plan, clock: nat, s: Settings)
    ensures var r := Reads(plan, clock, s);
            if r.ok then r.clock == clock + ReadCalls(s) && AllDone(plan, clock, r.clock)
            else FirstFailure(plan, clock, r.clock)
  {
    var start := ReadRun(true, clock);
    var run := VariableReads(plan, start, AllOwned(s.instances));
    VariableReadsSucceed(plan, start, AllOwned(s.instances));
    if run.ok {
      SourceReadsSucceed(plan, run, s.sources);
      if SourceReads(plan, run, s.sources).ok {
        DoneInParts(plan, clock, run.clock, run.clock + SourceCalls(s.sources));
      } else {
        SourceReadsFail(plan, run, s.sources);
        DoneInParts(plan, clock, run.clock, SourceReads(plan, run, s.sources).clock - 1);
      }
    } else {
      VariableReadsFail(plan, start, AllOwned(s.instances));
      FailedReadsStay(plan, run, s.sources);
    }
  }

  lemma TransactStops(plan: Plan, w: World, changes: seq<Change>, stored: Settings, fileOutcome: Outcome)
    requires Transact(plan, w, changes, stored, fileOutcome).result.None?
    ensures var r := Transact(plan, w, changes, stored, fileOutcome);
            && r.world.clock == r.undoFrom + |r.applied|
            && r.undoFrom >= w.clock
            && if AllDone(plan, w.clock, w.clock + Calls(changes, stored))
               then r.undoFrom == w.clock + Calls(changes, stored)
                    && r.world.file == if fileOutcome.Torn? then stored else w.file
               else FirstFailure(plan, w.clock, r.undoFrom) && r.world.file == w.file
  {
    var t := Attempt(plan, w.store, w.clock, changes);
    AttemptSucceeds(plan, w.store, w.clock, changes);
    AttemptShape(plan, w.store, w.clock, changes);
    DoneInParts(plan, w.clock, w.clock + 2 * |changes|, w.clock + Calls(changes, stored));
    if t.ok {
      var r := Reads(plan, t.clock, stored);
      ReadsEnd(plan, t.clock, stored);
      ReadsSucceed(plan, t.clock, stored);
      if !r.ok {
        DoneInParts(plan, w.clock, t.clock, r.clock - 1);
      }
    } else {
      AttemptFails(plan, w.store, w.clock, changes);
    }
  }

  /**
   * Where a failing update stops: its first undo follows at once on the first store call that
   * failed, or on all of them when it was the file that could not be written; one call is made
   * for each recorded undo. The file is written only if all calls worked and its write was torn.
   */
  lemma FailedUpdateStops(plan: Plan, w: World, req: Request, next: Settings)
    requires req.update(w.cache) == Some(next) && req.encodes
    requires UpdateWorld(plan, w, req).result.None?
    ensures var r := UpdateWorld(plan, w, req);
            var to: nat := w.clock + Calls(Changes(w.cache, next), Folded(Persisted(w.cache, next)));
            && r.world.clock == r.undoFrom + |r.applied|
            && (AllDone(plan, w.clock, to) ==> r.undoFrom == to && !req.fileOutcome.Done?)
            && (!AllDone(plan, w.clock, to) ==> FirstFailure(plan, w.clock, r.undoFrom))
            && if AllDone(plan, w.clock, to) && req.fileOutcome.Torn? then KeepsSettings(next, r.world.file)
               else r.world.file == w.file
  {
    TransactStops(plan, w, Changes(w.cache, next), Folded(Persisted(w.cache, next)), req.fileOutcome);
    UpdateSucceedsExactly(plan, w, req);
    PersistedKeeps(w.cache, next);
  }

  lemma DoneInParts(plan: Plan, a: nat, b: nat, c: nat)
    requires a <= b <= c
    ensures AllDone(plan, a, c) <==> AllDone(plan, a, b) && AllDone(plan, b, c)
  {
  }

  lemma FoldKeepsNoPlaintext(s: Settings)
    ensures NoPlaintext(Folded(s)) <==> NoPlaintext(s)
    ensures forall n :: Mentioned(Folded(s), n) <==> Mentioned(s, n)
  {
    FoldKeepsOwned(s);
  }

  /**
   * The caller of a successful update gets back, for each variable it sent, the value it sent,
   * or the text held before where it sent the marker, exactly when that entry prevails.
   */
  lemma SuccessfulUpdateReturns(plan: Plan, w: World, req: Request, next: Settings, k: nat)
    requires WellFormed(w.cache) && WellFormed(next)
    requires req.update(w.cache) == Some(next) && k < |AllOwned(next.instances)|
    requires UpdateWorld(plan, w, req).result.Some?
    ensures var m, o := UpdateWorld(plan, w, req).result.value, AllOwned(next.instances)[k];
            && |AllOwned(m.instances)| == |AllOwned(next.instances)|
            && Same(AllOwned(m.instances)[k], o)
            && (AllOwned(m.instances)[k].v.value == Wanted(w.cache, w.store, o)
                <==> Prevails(w.cache, next, w.store, o))
  {
    SuccessfulUpdate(plan, w, req, next);
    var w' := UpdateWorld(plan, w, req).world;
    FoldKeepsOwned(Persisted(w.cache, next));
    OwnedOfMapped(Materialiser(w'.store), w'.cache.instances);
    OwnedOfMapped(Materialiser(w'.store), Persisted(w.cache, next).instances);
    ReadBack(w.cache, next, w.store, k);
    DuplicateNamesRoundTrip(w.cache, next, w.store, k);
  }

  /** With distinct names every entry prevails. */
  lemma SuccessfulUpdateReturnsWanted(plan: Plan, w: World, req: Request, next: Settings, k: nat)
    requires WellFormed(w.cache) && WellFormed(next) && DistinctNames(AllOwned(next.instances))
    requires req.update(w.cache) == Some(next) && k < |AllOwned(next.instances)|
    requires UpdateWorld(plan, w, req).result.Some?
    ensures var m := UpdateWorld(plan, w, req).result.value;
            && |AllOwned(m.instances)| == |AllOwned(next.instances)|
            && Same(AllOwned(m.instances)[k], AllOwned(next.instances)[k])
            && AllOwned(m.instances)[k].v.value == Wanted(w.cache, w.store, AllOwned(next.instances)[k])
  {
    SuccessfulUpdateReturns(plan, w, req, next, k);
    DuplicateNamesRoundTrip(w.cache, next, w.store, k);
    DistinctNamesRoundTrip(w.cache, next, w.store, k);
  }

  /** And each usage-limit key the settings can hold: as sent, or as held before for the placeholder. */
  lemma SuccessfulUpdateReturnsKeys(plan: Plan, w: World, req: Request, next: Settings, i: nat)
    requires DistinctIds(next.sources) && i < |Assigned(next.sources)|
    requires req.update(w.cache) == Some(next) && UpdateWorld(plan, w, req).result.Some?
    ensures var m, e := UpdateWorld(plan, w, req).result.value, Assigned(next.sources)[i];
            && |m.sources| == |Assigned(next.sources)| && m.sources[i].id == e.id
            && m.sources[i].item.managementKey
               == if e.item.managementKey == KEY_REDACTED then ReadSecret(w.store, SourceName(e.id))
                  else Decoded(e.item.managementKey)
  {
    SuccessfulUpdate(plan, w, req, next);
    SourceRoundTrip(w.cache, next, w.store, i);
  }

  // ---------------------------------------------------------------- what an update keeps of the rest

  /** The same variable; a plain one also keeps its value. */
  predicate KeepsVariable(v: Variable, w: Variable) {
    && w.name == v.name && w.sensitive == v.sensitive
    && (!v.sensitive ==> w.value == v.value)
  }

  predicate KeepsEnvironment(before: Option<seq<Variable>>, after: Option<seq<Variable>>) {
    && (before.None? <==> after.None?)
    && |before.GetOr([])| == |after.GetOr([])|
    && forall j :: 0 <= j < |before.GetOr([])| ==> KeepsVariable(before.GetOr([])[j], after.GetOr([])[j])
  }

  /**
   * The same instance, its legacy flag moved out of the driver's blob: it is disabled exactly
   * if it was disabled on either side, and has no flag exactly if it had none on both.
   */
  predicate KeepsInstance(a: Entry<Instance>, b: Entry<Instance>) {
    && b.id == a.id && b.item.rest == a.item.rest
    && b.item.configEnabled.None?
    && (b.item.enabled == Some(false) <==> Disabled(a.item))
    && (b.item.enabled.None? <==> a.item.enabled.None? && a.item.configEnabled.None?)
    && KeepsEnvironment(a.item.environment, b.item.environment)
  }

  predicate KeepsInstances(a: seq<Entry<Instance>>, b: seq<Entry<Instance>>) {
    |a| == |b| && forall i :: 0 <= i < |a| ==> KeepsInstance(a[i], b[i])
  }

  predicate KeepsSources(a: seq<Entry<Source>>, b: seq<Entry<Source>>) {
    |a| == |b| && forall i :: 0 <= i < |a| ==> b[i].id == a[i].id && b[i].item.rest == a[i].item.rest
  }

  /** Everything the client asked for, apart from secret texts and the source a record cannot hold. */
  predicate KeepsSettings(next: Settings, kept: Settings) {
    && kept.rest == next.rest
    && KeepsInstances(next.instances, kept.instances)
    && KeepsSources(Assigned(next.sources), kept.sources)
  }

  lemma PersistedKeeps(cur: Settings, next: Settings)
    ensures KeepsSettings(next, Folded(Persisted(cur, next)))
  {
    var kept := Folded(Persisted(cur, next));
    forall i | 0 <= i < |next.instances| ensures KeepsInstance(next.instances[i], kept.instances[i]) {
      var persisted := MapEntry(Persister(cur.instances), next.instances[i]);
      assert kept.instances[i] == persisted.(item := FoldedInstance(persisted.item));
      FoldKeepsDisables(persisted.item);
    }
  }

  lemma MaterialisedKeeps(store: Secrets, next: Settings, kept: Settings)
    requires KeepsSettings(next, kept) && Assigned(kept.sources) == kept.sources
    ensures KeepsSettings(next, Materialised(store, kept))
  {
    var m := Materialised(store, kept);
    forall i | 0 <= i < |next.instances| ensures KeepsInstance(next.instances[i], m.instances[i]) {
      assert KeepsInstance(next.instances[i], kept.instances[i]);
      assert m.instances[i] == MapEntry(Materialiser(store), kept.instances[i]);
    }
  }

  /**
   * A successful update stores what the client asked for and nothing else: the file, the cache
   * and the settings handed back have its instances, variables and sources in order, and
   * everything the model does not look into.
   */
  lemma SuccessfulUpdateKeeps(plan: Plan, w: World, req: Request, next: Settings)
    requires req.update(w.cache) == Some(next)
    requires UpdateWorld(plan, w, req).result.Some?
    ensures var r := UpdateWorld(plan, w, req);
            && r.world.file == r.world.cache
            && KeepsSettings(next, r.world.file) && KeepsSettings(next, r.result.value)
  {
    SuccessfulUpdate(plan, w, req, next);
    PersistedKeeps(w.cache, next);
    PersistedAreAssigned(next.sources);
    MaterialisedKeeps(UpdateWorld(plan, w, req).world.store, next, Folded(Persisted(w.cache, next)));
  }

  // ---------------------------------------------------------------- runs

  function Run(plan: Plan, w: World, reqs: seq<Request>): World {
    if reqs == [] then w
    else UpdateWorld(plan, Run(plan, w, reqs[..|reqs| - 1]), reqs[|reqs| - 1]).world
  }

  predicate Foreign(store: Secrets, n: string, text: Option<string>) {
    !Managed(n) ==> Lookup(store, n) == text
  }

  lemma FailureSparesForeign(plan: Plan, w: World, req: Request, next: Settings, n: string)
    requires req.update(w.cache) == Some(next) && req.encodes
    requires UpdateWorld(plan, w, req).result.None? && !Managed(n)
    ensures Lookup(UpdateWorld(plan, w, req).world.store, n) == Lookup(w.store, n)
  {
    FailedUpdateLeaves(plan, w, req, next, n);
    var made := Changes(w.cache, next)[..Left(plan, w, req, next, n)];
    forall c | c in made ensures c.name != n {
      ChangeIsManaged(w.cache, next, c);
    }
    EffectIsMember(made, n);
  }

  lemma StepSparesForeign(plan: Plan, w: World, req: Request, n: string)
    ensures Foreign(UpdateWorld(plan, w, req).world.store, n, Lookup(w.store, n))
  {
    if !Managed(n) && req.update(w.cache).Some? && req.encodes {
      var next := req.update(w.cache).value;
      if UpdateWorld(plan, w, req).result.Some? {
        SuccessfulUpdate(plan, w, req, next);
        ForeignSecretsUntouched(w.cache, next, w.store, n);
      } else {
        FailureSparesForeign(plan, w, req, next, n);
      }
    }
  }

  lemma StepKeepsFile(plan: Plan, w: World, req: Request)
    ensures var w' := UpdateWorld(plan, w, req).world; w'.file == w.file || NoPlaintext(w'.file)
  {
    if req.update(w.cache).Some? {
      var next := req.update(w.cache).value;
      FoldKeepsNoPlaintext(Persisted(w.cache, next));
      PersistedHasNoPlaintext(w.cache, next);
      FileWritten(plan, w, Changes(w.cache, next), Folded(Persisted(w.cache, next)), req.fileOutcome);
    }
  }

  lemma FileWritten(plan: Plan, w: World, changes: seq<Change>, stored: Settings, fileOutcome: Outcome)
    ensures var w' := Transact(plan, w, changes, stored, fileOutcome).world; w'.file == w.file || w'.file == stored
  {
  }

  /**
   * Over any run of updates, whatever fails in it: the file is the one the run began with or
   * holds no secret text, and the secrets of other services stay as they were.
   */
  lemma {:induction false} RunKeepsSecrets(plan: Plan, w: World, reqs: seq<Request>)
    ensures var w' := Run(plan, w, reqs);
            && (w'.file == w.file || NoPlaintext(w'.file))
            && (forall n :: Foreign(w'.store, n, Lookup(w.store, n)))
  {
    if reqs != [] {
      var front, req := reqs[..|reqs| - 1], reqs[|reqs| - 1];
      RunKeepsSecrets(plan, w, front);
      StepKeepsFile(plan, Run(plan, w, front), req);
      forall n ensures Foreign(Run(plan, w, reqs).store, n, Lookup(w.store, n)) {
        assert Foreign(Run(plan, w, front).store, n, Lookup(w.store, n));
        StepSparesForeign(plan, Run(plan, w, front), req, n);
      }
    }
  }

  /**
   * Of the changes a failed update leaves the mark of, the last one to name `n` is a write. A
   * change that was a removal never makes this so, whether its undo works or not.
   */
  predicate LeftWritten(plan: Plan, w: World, req: Request, next: Settings, n: string) {
    Effect(Changes(w.cache, next)[..Left(plan, w, req, next, n)], n).Holds?
  }

  /** So only a change that stored a text, and whose undo failed or was never recorded, can leave an orphan. */
  lemma LeftWasStored(plan: Plan, w: World, req: Request, next: Settings, n: string) returns (text: string)
    requires LeftWritten(plan, w, req, next, n)
    ensures Write(n, text) in Changes(w.cache, next)[..Left(plan, w, req, next, n)]
  {
    var made := Changes(w.cache, next)[..Left(plan, w, req, next, n)];
    EffectIsMember(made, n);
    text := Effect(made, n).text;
  }

  /** No name the settings do not mention is left written by a failed update. */
  ghost predicate FailsCleanly(plan: Plan, w: World, req: Request, next: Settings) {
    forall n :: Managed(n) && !Mentioned(w.cache, n) ==> !LeftWritten(plan, w, req, next, n)
  }

  /** If the update succeeds its sources are released, and if it fails it fails cleanly. */
  ghost predicate EndsCleanly(plan: Plan, w: World, req: Request) {
    req.update(w.cache).Some? && req.encodes ==>
      var next := req.update(w.cache).value;
      if UpdateWorld(plan, w, req).result.Some? then SourcesReleased(w.cache, next, w.store)
      else FailsCleanly(plan, w, req, next)
  }

  lemma FailedStepOrphans(plan: Plan, w: World, req: Request, next: Settings)
    requires NoOrphans(w.cache, w.store)
    requires req.update(w.cache) == Some(next) && req.encodes && UpdateWorld(plan, w, req).result.None?
    ensures NoOrphans(w.cache, UpdateWorld(plan, w, req).world.store) <==> FailsCleanly(plan, w, req, next)
  {
    var store' := UpdateWorld(plan, w, req).world.store;
    forall n | Managed(n) && !Mentioned(w.cache, n)
      ensures n in store' <==> LeftWritten(plan, w, req, next, n)
    {
      FailedUpdateLeaves(plan, w, req, next, n);
      assert n !in w.store;
    }
  }

  /** One update keeps the store free of orphans exactly when it ends cleanly. */
  lemma StepOrphans(plan: Plan, w: World, req: Request)
    requires NoOrphans(w.cache, w.store)
    ensures var w' := UpdateWorld(plan, w, req).world;
            NoOrphans(w'.cache, w'.store) <==> EndsCleanly(plan, w, req)
  {
    var r := UpdateWorld(plan, w, req);
    if req.update(w.cache).Some? && req.encodes {
      var next := req.update(w.cache).value;
      if r.result.Some? {
        SuccessfulUpdate(plan, w, req, next);
        UpdateOrphansExactly(w.cache, next, w.store);
        FoldKeepsNoPlaintext(Persisted(w.cache, next));
      } else {
        FailedUpdateKeepsSettings(plan, w, req);
        FailedStepOrphans(plan, w, req, next);
      }
    }
  }

  ghost predicate CleanRun(plan: Plan, w: World, reqs: seq<Request>) {
    if reqs == [] then true
    else
      var front := reqs[..|reqs| - 1];
      CleanRun(plan, w, front) && EndsCleanly(plan, Run(plan, w, front), reqs[|reqs| - 1])
  }

  /** After every update of the run the store holds no managed secret the settings do not mention. */
  ghost predicate NeverOrphans(plan: Plan, w: World, reqs: seq<Request>) {
    && NoOrphans(Run(plan, w, reqs).cache, Run(plan, w, reqs).store)
    && (reqs != [] ==> NeverOrphans(plan, w, reqs[..|reqs| - 1]))
  }

  /** A run never leaves an orphan exactly when each of its updates ends cleanly. */
  lemma {:induction false} RunOrphansExactly(plan: Plan, w: World, reqs: seq<Request>)
    requires NoOrphans(w.cache, w.store)
    ensures NeverOrphans(plan, w, reqs) <==> CleanRun(plan, w, reqs)
  {
    if reqs != [] {
      var front := reqs[..|reqs| - 1];
      RunOrphansExactly(plan, w, front);
      if NeverOrphans(plan, w, front) {
        StepOrphans(plan, Run(plan, w, front), reqs[|reqs| - 1]);
      }
    }
  }

  /** Working undos and a recoverable trial are enough: such a failure leaves nothing behind. */
  lemma WorkingUndosFailCleanly(plan: Plan, w: World, req: Request)
    requires NoOrphans(w.cache, w.store)
    requires var r := UpdateWorld(plan, w, req);
             r.result.None? && req.update(w.cache).Some? && UndosWork(plan, r.undoFrom, r.applied)
             && Recoverable(plan, w.store, w.clock, Changes(w.cache, req.update(w.cache).value))
    ensures EndsCleanly(plan, w, req)
  {
    if req.encodes {
      FailedUpdate(plan, w, req, req.update(w.cache).value);
      FailedStepOrphans(plan, w, req, req.update(w.cache).value);
    }
  }

  // ---------------------------------------------------------------- the service

  class SecretStore {
    const plan: Plan
    var contents: Secrets
    var clock: nat

    constructor (plan: Plan, contents: Secrets)
      ensures this.plan == plan && this.contents == contents && clock == 0
    {
      this.plan := plan;
      this.contents := contents;
      clock := 0;
    }

    /** `None` is a failed read; `Some(None)` a missing secret. */
    method Get(name: string) returns (r: Option<Option<string>>)
      modifies this`clock
      ensures clock == old(clock) + 1
      ensures r == if plan(old(clock)).Done? then Some(Lookup(contents, name)) else None
    {
      r := if plan(clock).Done? then Some(Lookup(contents, name)) else None;
      clock := clock + 1;
    }

    method Set(name: string, text: string) returns (ok: bool)
      modifies this
      ensures clock == old(clock) + 1 && ok == plan(old(clock)).Done?
      ensures contents == SetEffect(plan(old(clock)), old(contents), name, text)
    {
      ok := plan(clock).Done?;
      if !plan(clock).Refused? {
        contents := contents[name := text];
      }
      clock := clock + 1;
    }

    method Remove(name: string) returns (ok: bool)
      modifies this
      ensures clock == old(clock) + 1 && ok == plan(old(clock)).Done?
      ensures contents == RemoveEffect(plan(old(clock)), old(contents), name)
    {
      ok := plan(clock).Done?;
      if ok {
        contents := contents - {name};
      }
      clock := clock + 1;
    }
  }

  lemma {:induction false} AttemptStops(plan: Plan, store: Secrets, clock: nat, changes: seq<Change>, i: nat)
    requires i <= |changes| && !Attempt(plan, store, clock, changes[..i]).ok
    ensures Attempt(plan, store, clock, changes) == Attempt(plan, store, clock, changes[..i])
    decreases |changes|
  {
    if i < |changes| {
      assert changes[..|changes| - 1][..i] == changes[..i];
      AttemptStops(plan, store, clock, changes[..|changes| - 1], i);
    } else {
      assert changes[..i] == changes;
    }
  }

  // Walking an environment extends the flat list of owned variables by one.

  function Walked(before: seq<Owned>, id: string, env: seq<Variable>, j: nat): seq<Owned>
    requires j <= |env|
  {
    before + OwnedBy(id, env[..j])
  }

  lemma WalkStart(before: seq<Owned>, id: string, env: seq<Variable>)
    ensures Walked(before, id, env, 0) == before
    ensures Walked(before, id, env, |env|) == before + OwnedBy(id, env)
  {
    assert env[..|env|] == env;
  }

  lemma WalkStep(before: seq<Owned>, id: string, env: seq<Variable>, j: nat)
    requires j < |env|
    ensures Walked(before, id, env, j + 1) == Walked(before, id, env, j) + [Owned(id, env[j])]
  {
    assert env[..j + 1][..j] == env[..j];
  }

  lemma ReadsStep(plan: Plan, r: ReadRun, os: seq<Owned>, o: Owned)
    ensures VariableReads(plan, r, os + [o])
            == if o.v.sensitive && o.v.Marked() then ReadOne(plan, VariableReads(plan, r, os))
               else VariableReads(plan, r, os)
  {
    assert (os + [o])[..|os|] == os;
  }

  lemma PersistStep(cur: seq<Entry<Instance>>, os: seq<Owned>, o: Owned)
    ensures EnvWrites(cur, os + [o]) == EnvWrites(cur, os)
            + if Puts(cur, o) then [Write(o.Secret(), Supplied(cur, o).value)] else []
    ensures EnvRemovals(cur, os + [o])
            == EnvRemovals(cur, os) + if Clears(cur, o) then [Remove(o.Secret())] else []
    ensures SensitiveNames(os + [o]) == SensitiveNames(os) + if o.v.sensitive then {o.Secret()} else {}
  {
    assert (os + [o])[..|os|] == os;
  }

  lemma SourceReadsStep(plan: Plan, r: ReadRun, es: seq<Entry<Source>>, i: nat)
    requires i < |es|
    ensures SourceReads(plan, r, es[..i + 1])
            == if es[i].item.managementKey == KEY_REDACTED then ReadOne(plan, SourceReads(plan, r, es[..i]))
               else SourceReads(plan, r, es[..i])
  {
    assert es[..i + 1][..i] == es[..i];
  }

  lemma AssignedStep(es: seq<Entry<Source>>, i: nat)
    requires i < |es|
    ensures Assigned(es[..i + 1]) == Assign(Assigned(es[..i]), es[i])
  {
    assert es[..i + 1][..i] == es[..i];
  }

  lemma MaterialisedStep(store: Secrets, es: seq<Entry<Source>>, i: nat)
    requires i < |es|
    ensures MaterialisedSources(store, Assigned(es[..i + 1]))
            == Assign(MaterialisedSources(store, Assigned(es[..i])), MaterialisedSource(store, es[i]))
    ensures MaterialisedSource(store, es[i])
            == if es[i].item.managementKey != KEY_REDACTED then es[i]
               else es[i].(item := es[i].item.(managementKey := TextOf(Lookup(store, SourceName(es[i].id)))))
  {
    AssignedStep(es, i);
  }

  lemma SourceStep(es: seq<Entry<Source>>, i: nat)
    requires i < |es|
    ensures PersistedSources(Assigned(es[..i + 1]))
            == Assign(PersistedSources(Assigned(es[..i])), PersistedSource(es[i]))
    ensures SourceWrites(es[..i + 1]) == SourceWrites(es[..i])
            + if es[i].item.managementKey != "" && es[i].item.managementKey != KEY_REDACTED
              then [Write(SourceName(es[i].id), es[i].item.managementKey)] else []
    ensures SourceRemovals(es[..i + 1]) == SourceRemovals(es[..i])
            + if es[i].item.managementKey == "" then [Remove(SourceName(es[i].id))] else []
  {
    AssignedStep(es, i);
    assert es[..i + 1][..i] == es[..i];
  }

  lemma InstanceStep(f: Owned -> Variable, es: seq<Entry<Instance>>, i: nat)
    requires i < |es|
    ensures MapInstances(f, es[..i + 1]) == MapInstances(f, es[..i]) + [MapEntry(f, es[i])]
    ensures AllOwned(es[..i + 1]) == AllOwned(es[..i]) + OwnedBy(es[i].id, es[i].item.Env())
  {
    assert es[..i + 1][..i] == es[..i];
  }

  lemma StaleStep(kept: set<string>, os: seq<Owned>, o: Owned)
    ensures StaleRemovals(kept, os + [o]) == StaleRemovals(kept, os)
            + if o.v.sensitive && o.Secret() !in kept then [Remove(o.Secret())] else []
  {
    assert (os + [o])[..|os|] == os;
  }

  lemma MapStep(f: Owned -> Variable, id: string, env: seq<Variable>, j: nat)
    requires j < |env|
    ensures MapEnv(f, id, env[..j + 1]) == MapEnv(f, id, env[..j]) + [f(Owned(id, env[j]))]
  {
  }

  class Service {
    const store: SecretStore
    var file: Settings
    var cache: Settings

    constructor (store: SecretStore, settings: Settings)
      ensures this.store == store && file == settings && cache == settings
    {
      this.store := store;
      file := settings;
      cache := settings;
    }

    function Snapshot(): World
      reads this, store
    {
      World(store.contents, store.clock, file, cache)
    }

    method Rollback(applied: seq<Undo>)
      modifies store
      ensures store.contents == Undone(store.plan, old(store.contents), old(store.clock), applied)
      ensures store.clock == old(store.clock) + |applied|
    {
      var i := |applied|;
      assert applied[..i] == applied;
      while i > 0
        invariant 0 <= i <= |applied|
        invariant store.clock == old(store.clock) + (|applied| - i)
        invariant Undone(store.plan, store.contents, store.clock, applied[..i])
                  == Undone(store.plan, old(store.contents), old(store.clock), applied)
      {
        i := i - 1;
        assert applied[..i + 1][..i] == applied[..i];
        var u := applied[i];
        var ok;
        match u.previous {
          case Some(text) => ok := store.Set(u.name, text);
          case None => ok := store.Remove(u.name);
        }
      }
    }

    /** Applies the changes in order; on the first failure undoes what was applied. */
    method ApplyChanges(changes: seq<Change>) returns (ok: bool, applied: seq<Undo>)
      modifies store
      ensures var t := Attempt(store.plan, old(store.contents), old(store.clock), changes);
              && ok == t.ok && applied == t.applied
              && store.contents == (if t.ok then t.store else Undone(store.plan, t.store, t.clock, t.applied))
              && store.clock == (if t.ok then t.clock else t.clock + |t.applied|)
    {
      ok, applied := true, [];
      var i := 0;
      while i < |changes| && ok
        invariant 0 <= i <= |changes|
        invariant Attempt(store.plan, old(store.contents), old(store.clock), changes[..i])
                  == Trial(store.contents, store.clock, applied, ok)
      {
        var c := changes[i];
        assert changes[..i + 1][..i] == changes[..i];
        var previous := store.Get(c.name);
        if previous.None? {
          ok := false;
        } else {
          match c {
            case Write(name, text) => ok := store.Set(name, text);
            case Remove(name) => ok := store.Remove(name);
          }
          if ok {
            applied := applied + [Undo(c.name, previous.value)];
          }
        }
        i := i + 1;
      }
      if ok {
        assert changes[..i] == changes;
      } else {
        AttemptStops(store.plan, old(store.contents), old(store.clock), changes, i);
        Rollback(applied);
      }
    }

    /** Reads one environment back; `before` are the variables of the instances done so far. */
    method MaterialiseEnv(id: string, env: seq<Variable>, going: bool, ghost start: ReadRun, ghost before: seq<Owned>)
      returns (ok: bool, environment: seq<Variable>)
      requires ReadRun(going, store.clock) == VariableReads(store.plan, start, before)
      modifies store`clock
      ensures ReadRun(ok, store.clock) == VariableReads(store.plan, start, before + OwnedBy(id, env))
      ensures ok ==> going && environment == MapEnv(Materialiser(store.contents), id, env)
    {
      ok, environment := going, [];
      WalkStart(before, id, env);
      for j := 0 to |env|
        invariant ReadRun(ok, store.clock) == VariableReads(store.plan, start, Walked(before, id, env, j))
        invariant ok ==> going && environment == MapEnv(Materialiser(store.contents), id, env[..j])
      {
        var v := env[j];
        WalkStep(before, id, env, j);
        ReadsStep(store.plan, start, Walked(before, id, env, j), Owned(id, v));
        MapStep(Materialiser(store.contents), id, env, j);
        if !v.sensitive || !v.Marked() {
          environment := environment + [v];
        } else if ok {
          var secret := store.Get(EnvName(id, v.name));
          ok := secret.Some?;
          if ok {
            environment := environment + [v.(value := TextOf(secret.value))];
          }
        }
      }
      assert env[..|env|] == env;
    }

    /** Reads every stored secret back into a copy of the settings. */
    method Materialise(s: Settings) returns (r: Option<Settings>)
      modifies store`clock
      ensures var run := Reads(store.plan, old(store.clock), s);
              && store.clock == run.clock
              && r == if run.ok then Some(Materialised(store.contents, s)) else None
    {
      ghost var start := ReadRun(true, store.clock);
      var ok, instances, sources := true, [], [];
      for i := 0 to |s.instances|
        invariant ReadRun(ok, store.clock) == VariableReads(store.plan, start, AllOwned(s.instances[..i]))
        invariant ok ==> instances == MapInstances(Materialiser(store.contents), s.instances[..i])
      {
        var e := s.instances[i];
        InstanceStep(Materialiser(store.contents), s.instances, i);
        var environment;
        ok, environment := MaterialiseEnv(e.id, e.item.Env(), ok, start, AllOwned(s.instances[..i]));
        instances := instances
          + [if e.item.environment.None? then e
             else e.(item := e.item.(environment := Some(environment)))];
      }
      assert s.instances[..|s.instances|] == s.instances;
      ok, sources := MaterialiseSources(s.sources, ok);
      r := if ok then Some(s.(instances := instances, sources := sources)) else None;
    }

    method MaterialiseSources(entries: seq<Entry<Source>>, going: bool)
      returns (ok: bool, sources: seq<Entry<Source>>)
      modifies store`clock
      ensures ReadRun(ok, store.clock) == SourceReads(store.plan, ReadRun(going, old(store.clock)), entries)
      ensures ok ==> going && sources == MaterialisedSources(store.contents, Assigned(entries))
    {
      ghost var start := ReadRun(going, store.clock);
      ok, sources := going, [];
      for i := 0 to |entries|
        invariant ReadRun(ok, store.clock) == SourceReads(store.plan, start, entries[..i])
        invariant ok ==> going && sources == MaterialisedSources(store.contents, Assigned(entries[..i]))
      {
        var e := entries[i];
        SourceReadsStep(store.plan, start, entries, i);
        MaterialisedStep(store.contents, entries, i);
        if e.item.managementKey != KEY_REDACTED {
          sources := Assign(sources, e);
        } else if ok {
          var secret := store.Get(SourceName(e.id));
          ok := secret.Some?;
          if ok {
            sources := Assign(sources, e.(item := e.item.(managementKey := TextOf(secret.value))));
          }
        }
      }
      assert entries[..|entries|] == entries;
    }

    /** Splits one environment; the change lists so far come in and are extended. */
    method PersistEnv(
      cur: seq<Entry<Instance>>, id: string, env: seq<Variable>,
      writes0: seq<Change>, removals0: seq<Change>, keys0: set<string>, ghost before: seq<Owned>)
      returns (environment: seq<Variable>, writes: seq<Change>, removals: seq<Change>, keys: set<string>)
      requires writes0 == EnvWrites(cur, before) && removals0 == EnvRemovals(cur, before)
      requires keys0 == SensitiveNames(before)
      ensures environment == MapEnv(Persister(cur), id, env)
      ensures var os := before + OwnedBy(id, env);
              writes == EnvWrites(cur, os) && removals == EnvRemovals(cur, os) && keys == SensitiveNames(os)
    {
      environment, writes, removals, keys := [], writes0, removals0, keys0;
      WalkStart(before, id, env);
      for j := 0 to |env|
        invariant environment == MapEnv(Persister(cur), id, env[..j])
        invariant writes == EnvWrites(cur, Walked(before, id, env, j))
        invariant removals == EnvRemovals(cur, Walked(before, id, env, j))
        invariant keys == SensitiveNames(Walked(before, id, env, j))
      {
        var v := env[j];
        WalkStep(before, id, env, j);
        PersistStep(cur, Walked(before, id, env, j), Owned(id, v));
        MapStep(Persister(cur), id, env, j);
        var secretName := EnvName(id, v.name);
        if !v.sensitive {
          removals := removals + [Remove(secretName)];
          environment := environment + [RedactedVariable(v)];
        } else {
          keys := keys + {secretName};
          var previous := if v.Marked() then FindLast(EnvironmentOf(cur, id), v.name) else None;
          var inlineValue := Inline(previous);
          var value := inlineValue.GetOr(v.value);
          if v.Marked() && inlineValue.None? {
            environment := environment + [RedactedVariable(v)];
          } else if |value| > 0 {
            writes := writes + [Write(secretName, value)];
            environment := environment + [v.(value := "", redacted := Some(true))];
          } else {
            removals := removals + [Remove(secretName)];
            environment := environment + [v.(redacted := None)];
          }
        }
      }
      assert env[..|env|] == env;
    }

    /** Splits the secrets out of the next settings, collecting the changes to make. */
    method PersistSecrets(current: Settings, next: Settings)
      returns (settings: Settings, writes: seq<Change>, removals: seq<Change>)
      ensures settings == Persisted(current, next)
      ensures writes == Writes(current, next) && removals == Removals(current, next)
    {
      var instances, nextSecretKeys := [], {};
      writes, removals := [], [];
      var cur := current.instances;
      for i := 0 to |next.instances|
        invariant instances == MapInstances(Persister(cur), next.instances[..i])
        invariant writes == EnvWrites(cur, AllOwned(next.instances[..i]))
        invariant removals == EnvRemovals(cur, AllOwned(next.instances[..i]))
        invariant nextSecretKeys == SensitiveNames(AllOwned(next.instances[..i]))
      {
        var e := next.instances[i];
        InstanceStep(Persister(cur), next.instances, i);
        var environment;
        environment, writes, removals, nextSecretKeys :=
          PersistEnv(cur, e.id, e.item.Env(), writes, removals, nextSecretKeys, AllOwned(next.instances[..i]));
        instances := instances
          + [if e.item.environment.None? then e
             else e.(item := e.item.(environment := Some(environment)))];
      }
      assert next.instances[..|next.instances|] == next.instances;
      var removed := RemoveStaleSecrets(nextSecretKeys, cur);
      removals := removals + removed;
      var sources, sourceWrites, sourceRemovals := PersistSources(next.sources);
      removed := RemoveStaleSources(next.sources, current.sources);
      writes := writes + sourceWrites;
      removals := removals + sourceRemovals + removed;
      settings := next.(instances := instances, sources := sources);
    }

    method RemoveStaleSecrets(kept: set<string>, entries: seq<Entry<Instance>>) returns (removals: seq<Change>)
      ensures removals == StaleRemovals(kept, AllOwned(entries))
    {
      removals := [];
      for i := 0 to |entries|
        invariant removals == StaleRemovals(kept, AllOwned(entries[..i]))
      {
        var id, env := entries[i].id, entries[i].item.Env();
        assert entries[..i + 1][..i] == entries[..i];
        ghost var before := AllOwned(entries[..i]);
        WalkStart(before, id, env);
        for j := 0 to |env|
          invariant removals == StaleRemovals(kept, Walked(before, id, env, j))
        {
          WalkStep(before, id, env, j);
          StaleStep(kept, Walked(before, id, env, j), Owned(id, env[j]));
          var secretName := EnvName(id, env[j].name);
          if env[j].sensitive && secretName !in kept {
            removals := removals + [Remove(secretName)];
          }
        }
        assert env[..|env|] == env;
      }
      assert entries[..|entries|] == entries;
    }

    method PersistSources(entries: seq<Entry<Source>>)
      returns (sources: seq<Entry<Source>>, writes: seq<Change>, removals: seq<Change>)
      ensures sources == PersistedSources(Assigned(entries))
      ensures writes == SourceWrites(entries) && removals == SourceRemovals(entries)
    {
      sources, writes, removals := [], [], [];
      for i := 0 to |entries|
        invariant sources == PersistedSources(Assigned(entries[..i]))
        invariant writes == SourceWrites(entries[..i]) && removals == SourceRemovals(entries[..i])
      {
        var e := entries[i];
        SourceStep(entries, i);
        if e.item.managementKey == KEY_REDACTED {
          sources := Assign(sources, e);
        } else if |e.item.managementKey| == 0 {
          removals := removals + [Remove(SourceName(e.id))];
          sources := Assign(sources, e);
        } else {
          writes := writes + [Write(SourceName(e.id), e.item.managementKey)];
          sources := Assign(sources, e.(item := e.item.(managementKey := KEY_REDACTED)));
        }
      }
      assert entries[..|entries|] == entries;
    }

    method RemoveStaleSources(next: seq<Entry<Source>>, entries: seq<Entry<Source>>)
      returns (removals: seq<Change>)
      ensures removals == StaleSources(next, entries)
    {
      removals := [];
      for i := 0 to |entries|
        invariant removals == StaleSources(next, entries[..i])
      {
        assert entries[..i + 1][..i] == entries[..i];
        if !Finds(next, entries[i].id) {
          removals := removals + [Remove(SourceName(entries[i].id))];
        }
      }
      assert entries[..|entries|] == entries;
    }

    /** The uninterruptible part of an update. */
    method ApplyAndWrite(changes: seq<Change>, next: Settings, fileOutcome: Outcome) returns (result: Option<Settings>)
      modifies this`file, store
      ensures var r := Transact(store.plan, old(Snapshot()), changes, next, fileOutcome);
              result == r.result && Snapshot() == r.world
    {
      var ok, applied := ApplyChanges(changes);
      if !ok {
        return None;
      }
      result := Materialise(next);
      if result.None? {
        Rollback(applied);
        return None;
      }
      if !fileOutcome.Refused? {
        file := next;
      }
      if !fileOutcome.Done? {
        Rollback(applied);
        return None;
      }
    }

    /** One update under the write semaphore. `None` is a failed update. */
    method Update(req: Request) returns (result: Option<Settings>)
      modifies this, store
      ensures var r := UpdateWorld(store.plan, old(Snapshot()), req);
              result == r.result && Snapshot() == r.world
    {
      var updated := req.update(cache);
      if updated.None? || !req.encodes {
        return None;
      }
      var settings, writes, removals := PersistSecrets(cache, updated.value);
      var next := Folded(settings);
      result := ApplyAndWrite(writes + removals, next, req.fileOutcome);
      if result.Some? {
        cache := next;
      }
    }
  }
}
