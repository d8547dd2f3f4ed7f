/**
 * The settings update as a transaction over a secret store that may fail at any call.
 * Every store call consumes one tick of a fault plan; the plan is an arbitrary function, so
 * a statement for all plans is a statement for every pattern of failures.
 */
module SettingsTransaction {
  import opened Options
  import opened SecretNames
  import opened SettingsSecrets
  import opened SettingsTheorems

  /**
   * `Refused` fails without effect. `Torn` reports a failure although the new text is in
   * place: a stored secret is renamed over the old one before its permissions are set.
   */
  datatype Outcome = Done | Refused | Torn

  type Plan = nat -> Outcome

  function SetEffect(o: Outcome, store: Secrets, n: string, t: string): Secrets {
    if o.Refused? then store else store[n := t]
  }

  function RemoveEffect(o: Outcome, store: Secrets, n: string): Secrets {
    if o.Done? then store - {n} else store
  }

  function ChangeEffect(o: Outcome, store: Secrets, c: Change): Secrets {
    match c
    case Write(n, t) => SetEffect(o, store, n, t)
    case Remove(n) => RemoveEffect(o, store, n)
  }

  // ---------------------------------------------------------------- applying and undoing

  datatype Undo = Undo(name: string, previous: Option<string>)

  datatype Trial = Trial(store: Secrets, clock: nat, applied: seq<Undo>, ok: bool)

  /** Read the previous text, make the change, record how to undo it. */
  function Step(plan: Plan, t: Trial, c: Change): Trial {
    if !plan(t.clock).Done? then t.(clock := t.clock + 1, ok := false)
    else
      var o := plan(t.clock + 1);
      var store := ChangeEffect(o, t.store, c);
      if o.Done? then
        Trial(store, t.clock + 2, t.applied + [Undo(c.name, Lookup(t.store, c.name))], true)
      else Trial(store, t.clock + 2, t.applied, false)
  }

  function Attempt(plan: Plan, store: Secrets, clock: nat, changes: seq<Change>): Trial {
    if changes == [] then Trial(store, clock, [], true)
    else
      var t := Attempt(plan, store, clock, changes[..|changes| - 1]);
      if t.ok then Step(plan, t, changes[|changes| - 1]) else t
  }

  function UndoEffect(o: Outcome, store: Secrets, u: Undo): Secrets {
    match u.previous
    case Some(t) => SetEffect(o, store, u.name, t)
    case None => RemoveEffect(o, store, u.name)
  }

  /** Undo the last change first; a failing undo is logged and skipped. */
  function Undone(plan: Plan, store: Secrets, clock: nat, undos: seq<Undo>): Secrets
    decreases |undos|
  {
    if undos == [] then store
    else
      var last := |undos| - 1;
      Undone(plan, UndoEffect(plan(clock), store, undos[last]), clock + 1, undos[..last])
  }

  predicate Named(undos: seq<Undo>, n: string) {
    exists i :: 0 <= i < |undos| && undos[i].name == n
  }

  predicate UndoWorks(o: Outcome, u: Undo) {
    o.Done? || (o.Torn? && u.previous.Some?)
  }

  /** The first recorded change to `n`: the one that remembers the original text. */
  function FirstUndo(undos: seq<Undo>, n: string): (i: nat)
    requires Named(undos, n)
    ensures i < |undos| && undos[i].name == n && forall j :: 0 <= j < i ==> undos[j].name != n
  {
    if undos[0].name == n then 0
    else
      assert Named(undos[1..], n) by {
        var i :| 0 <= i < |undos| && undos[i].name == n;
        assert undos[1..][i - 1].name == n;
      }
      1 + FirstUndo(undos[1..], n)
  }

  /** The undo that runs last for `n` is the first one recorded, and that one must work. */
  predicate RestoresName(plan: Plan, clock: nat, undos: seq<Undo>, n: string) {
    Named(undos, n) ==>
      var i := FirstUndo(undos, n);
      UndoWorks(plan(clock + (|undos| - 1 - i)), undos[i])
  }

  lemma {:induction false} UndoneLookup(plan: Plan, store: Secrets, clock: nat, undos: seq<Undo>, n: string)
    requires RestoresName(plan, clock, undos, n)
    ensures Lookup(Undone(plan, store, clock, undos), n)
            == if Named(undos, n) then undos[FirstUndo(undos, n)].previous else Lookup(store, n)
    decreases |undos|
  {
    if undos != [] {
      var last := |undos| - 1;
      var front, store' := undos[..last], UndoEffect(plan(clock), store, undos[last]);
      if Named(undos, n) && FirstUndo(undos, n) < last {
        assert front[FirstUndo(undos, n)].name == n;
        assert FirstUndo(front, n) == FirstUndo(undos, n);
      } else {
        assert !Named(front, n);
      }
      UndoneLookup(plan, store', clock + 1, front, n);
    }
  }

  /** What a trial leaves: the recorded undos remember the original texts, nothing else moved. */
  predicate Faithful(store: Secrets, applied: seq<Undo>, now: Secrets, n: string) {
    if Named(applied, n) then applied[FirstUndo(applied, n)].previous == Lookup(store, n)
    else Lookup(now, n) == Lookup(store, n)
  }

  lemma FirstUndoExtends(undos: seq<Undo>, u: Undo, n: string)
    ensures Named(undos + [u], n) <==> Named(undos, n) || u.name == n
    ensures Named(undos, n) ==> FirstUndo(undos + [u], n) == FirstUndo(undos, n)
    ensures !Named(undos, n) && u.name == n ==> FirstUndo(undos + [u], n) == |undos|
  {
    var more := undos + [u];
    if Named(undos, n) {
      assert more[FirstUndo(undos, n)].name == n;
    } else if u.name == n {
      assert more[|undos|].name == n;
    }
    if Named(more, n) {
      var i := FirstUndo(more, n);
      assert i < |undos| ==> undos[i].name == n;
    }
  }

  /** The change at which a failing trial stopped was torn: its text is already in place. */
  predicate TornAt(plan: Plan, clock: nat, changes: seq<Change>, i: nat) {
    && i < |changes| && changes[i].Write?
    && plan(clock + 2 * i).Done? && plan(clock + 2 * i + 1).Torn?
  }

  /** The store while the first `i` changes are in place, and a torn one if that is where it stopped. */
  function Reached(plan: Plan, store: Secrets, clock: nat, changes: seq<Change>, i: nat): Secrets
    requires i <= |changes|
  {
    if TornAt(plan, clock, changes, i) then ApplyChange(Applied(store, changes[..i]), changes[i])
    else Applied(store, changes[..i])
  }

  predicate Shape(clock: nat, changes: seq<Change>, t: Trial) {
    && |t.applied| <= |changes|
    && (t.ok <==> |t.applied| == |changes|)
    && (t.ok ==> t.clock == clock + 2 * |changes|)
    && forall i :: 0 <= i < |t.applied| ==> t.applied[i].name == changes[i].name
  }

  lemma {:induction false} AttemptShape(plan: Plan, store: Secrets, clock: nat, changes: seq<Change>)
    ensures Shape(clock, changes, Attempt(plan, store, clock, changes))
  {
    if changes != [] {
      AttemptShape(plan, store, clock, changes[..|changes| - 1]);
    }
  }

  lemma StepReaches(plan: Plan, store: Secrets, clock: nat, changes: seq<Change>, t: Trial)
    requires changes != [] && Shape(clock, changes[..|changes| - 1], t) && t.ok
    requires t.store == Applied(store, changes[..|changes| - 1])
    ensures var s := Step(plan, t, changes[|changes| - 1]);
            |s.applied| <= |changes| && s.store == Reached(plan, store, clock, changes, |s.applied|)
  {
    var last := |changes| - 1;
    assert changes[..last + 1] == changes;
    assert t.clock == clock + 2 * last;
    if plan(t.clock).Done? && plan(t.clock + 1).Done? {
      assert !TornAt(plan, clock, changes, last + 1);
    } else {
      assert TornAt(plan, clock, changes, last)
             <==> changes[last].Write? && plan(t.clock).Done? && plan(t.clock + 1).Torn?;
    }
  }

  /** A trial applies a prefix of the changes, one by one, and stops at the first failing call. */
  lemma {:induction false} AttemptStore(plan: Plan, store: Secrets, clock: nat, changes: seq<Change>)
    ensures var t := Attempt(plan, store, clock, changes);
            |t.applied| <= |changes| && t.store == Reached(plan, store, clock, changes, |t.applied|)
  {
    if changes == [] {
      assert changes[..0] == [];
    } else {
      var front := changes[..|changes| - 1];
      AttemptShape(plan, store, clock, front);
      AttemptStore(plan, store, clock, front);
      var t := Attempt(plan, store, clock, front);
      var i := |t.applied|;
      assert front[..i] == changes[..i];
      if t.ok {
        assert front[..i] == front;
        StepReaches(plan, store, clock, changes, t);
      } else {
        assert TornAt(plan, clock, front, i) <==> TornAt(plan, clock, changes, i);
      }
    }
  }

  lemma {:induction false} AttemptIsFaithful(
    plan: Plan, store: Secrets, clock: nat, changes: seq<Change>, n: string)
    ensures var t := Attempt(plan, store, clock, changes);
            && (t.ok || Named(t.applied, n) ==> Faithful(store, t.applied, t.store, n))
  {
    if changes != [] {
      var front, c := changes[..|changes| - 1], changes[|changes| - 1];
      AttemptIsFaithful(plan, store, clock, front, n);
      var t := Attempt(plan, store, clock, front);
      if t.ok {
        FirstUndoExtends(t.applied, Undo(c.name, Lookup(t.store, c.name)), n);
      }
    }
  }

  lemma {:induction false} UntouchedByOthers(store: Secrets, changes: seq<Change>, n: string)
    requires forall i :: 0 <= i < |changes| ==> changes[i].name != n
    ensures Lookup(Applied(store, changes), n) == Lookup(store, n)
  {
    if changes != [] {
      UntouchedByOthers(store, changes[..|changes| - 1], n);
    }
  }

  /** The one write a rollback cannot take back: torn, and its name not recorded before. */
  predicate Stray(plan: Plan, clock: nat, changes: seq<Change>, t: Trial, n: string) {
    var i := |t.applied|;
    TornAt(plan, clock, changes, i) && changes[i].name == n && !Named(t.applied, n)
  }

  /**
   * Rollback, name by name: when the decisive undo for `n` works, `n` is as it was before the
   * trial, unless the trial stopped at a stray write to `n`, whose text then stays.
   */
  lemma RollbackRestoresName(
    plan: Plan, store: Secrets, clock: nat, changes: seq<Change>, from: nat, n: string)
    requires RestoresName(plan, from, Attempt(plan, store, clock, changes).applied, n)
    ensures var t := Attempt(plan, store, clock, changes);
            Lookup(Undone(plan, t.store, from, t.applied), n)
            == if Stray(plan, clock, changes, t, n) then Some(changes[|t.applied|].text) else Lookup(store, n)
  {
    var t := Attempt(plan, store, clock, changes);
    UndoneLookup(plan, t.store, from, t.applied, n);
    AttemptIsFaithful(plan, store, clock, changes, n);
    AttemptShape(plan, store, clock, changes);
    AttemptStore(plan, store, clock, changes);
    if !Named(t.applied, n) {
      forall i | 0 <= i < |t.applied| ensures changes[i].name != n {
        assert t.applied[i].name == changes[i].name;
      }
      UntouchedByOthers(store, changes[..|t.applied|], n);
    }
  }

  ghost predicate UndosWork(plan: Plan, from: nat, undos: seq<Undo>) {
    forall n :: RestoresName(plan, from, undos, n)
  }

  /**
   * Exactly when a rollback whose undos work restores the whole store: always, unless the
   * trial stopped at a torn write of a new text to a name not changed before.
   */
  lemma RollbackExactly(plan: Plan, store: Secrets, clock: nat, changes: seq<Change>, from: nat)
    requires UndosWork(plan, from, Attempt(plan, store, clock, changes).applied)
    ensures var t := Attempt(plan, store, clock, changes);
            var i := |t.applied|;
            Undone(plan, t.store, from, t.applied) == store
            <==> (TornAt(plan, clock, changes, i)
                  ==> Named(t.applied, changes[i].name)
                      || Lookup(store, changes[i].name) == Some(changes[i].text))
  {
    var t := Attempt(plan, store, clock, changes);
    var i, after := |t.applied|, Undone(plan, t.store, from, t.applied);
    forall n ensures Lookup(after, n) == if Stray(plan, clock, changes, t, n) then Some(changes[i].text)
                                         else Lookup(store, n) {
      RollbackRestoresName(plan, store, clock, changes, from, n);
    }
    if TornAt(plan, clock, changes, i) {
      assert Stray(plan, clock, changes, t, changes[i].name) <==> !Named(t.applied, changes[i].name);
    }
    if forall n :: Lookup(after, n) == Lookup(store, n) {
      SameLookups(after, store);
    }
  }

  // ---------------------------------------------------------------- rollback under any failures

  /** The undo for `n` whose text survives: the first recorded one that takes effect. */
  function FirstWorking(plan: Plan, clock: nat, undos: seq<Undo>, n: string): (r: Option<nat>)
    ensures r.Some? ==> r.value < |undos| && undos[r.value].name == n
    decreases |undos|
  {
    if undos == [] then None
    else
      var last := |undos| - 1;
      match FirstWorking(plan, clock + 1, undos[..last], n)
      case Some(i) => Some(i)
      case None => if undos[last].name == n && UndoWorks(plan(clock), undos[last]) then Some(last) else None
  }

  lemma {:induction false} UndoneExactly(plan: Plan, store: Secrets, clock: nat, undos: seq<Undo>, n: string)
    ensures Lookup(Undone(plan, store, clock, undos), n)
            == match FirstWorking(plan, clock, undos, n)
               case Some(i) => undos[i].previous
               case None => Lookup(store, n)
    decreases |undos|
  {
    if undos != [] {
      var last := |undos| - 1;
      UndoneExactly(plan, UndoEffect(plan(clock), store, undos[last]), clock + 1, undos[..last], n);
    }
  }

  lemma {:induction false} AttemptRemembers(plan: Plan, store: Secrets, clock: nat, changes: seq<Change>, i: nat)
    requires i < |Attempt(plan, store, clock, changes).applied|
    ensures i < |changes|
    ensures Attempt(plan, store, clock, changes).applied[i]
            == Undo(changes[i].name, Lookup(Applied(store, changes[..i]), changes[i].name))
    decreases |changes|
  {
    var front := changes[..|changes| - 1];
    var t := Attempt(plan, store, clock, front);
    AttemptShape(plan, store, clock, front);
    AttemptStore(plan, store, clock, front);
    if i < |t.applied| {
      AttemptRemembers(plan, store, clock, front, i);
      assert front[..i] == changes[..i];
    } else {
      assert front[..|front|] == front && i == |front|;
      assert changes[..i] == front;
    }
  }

  /**
   * How many changes of the list a name still bears the mark of after the rollback: those made
   * before the one whose undo survives, or, when no undo for the name takes effect, all that
   * were made, a torn write included.
   */
  function Surviving(plan: Plan, store: Secrets, clock: nat, changes: seq<Change>, from: nat, n: string): (p: nat)
    ensures p <= |changes|
  {
    var t := Attempt(plan, store, clock, changes);
    AttemptShape(plan, store, clock, changes);
    match FirstWorking(plan, from, t.applied, n)
    case Some(i) => i
    case None => if TornAt(plan, clock, changes, |t.applied|) then |t.applied| + 1 else |t.applied|
  }

  /** Rollback, name by name and for every pattern of failures among changes and undos. */
  lemma RollbackOutcome(plan: Plan, store: Secrets, clock: nat, changes: seq<Change>, from: nat, n: string)
    ensures var t := Attempt(plan, store, clock, changes);
            var p := Surviving(plan, store, clock, changes, from, n);
            Lookup(Undone(plan, t.store, from, t.applied), n) == After(Lookup(store, n), Effect(changes[..p], n))
  {
    var t := Attempt(plan, store, clock, changes);
    var p := Surviving(plan, store, clock, changes, from, n);
    UndoneExactly(plan, t.store, from, t.applied, n);
    AppliedLookup(store, changes[..p], n);
    match FirstWorking(plan, from, t.applied, n) {
      case Some(i) =>
        AttemptRemembers(plan, store, clock, changes, i);
      case None =>
        AttemptStore(plan, store, clock, changes);
        ReachedIsApplied(plan, store, clock, changes, |t.applied|);
    }
  }

  lemma ReachedIsApplied(plan: Plan, store: Secrets, clock: nat, changes: seq<Change>, i: nat)
    requires i <= |changes|
    ensures Reached(plan, store, clock, changes, i)
            == Applied(store, changes[..if TornAt(plan, clock, changes, i) then i + 1 else i])
  {
    if TornAt(plan, clock, changes, i) {
      assert changes[..i + 1][..i] == changes[..i];
    }
  }
}
