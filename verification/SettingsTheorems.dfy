/**
 * What the split between settings and secrets guarantees: nothing secret is persisted, when
 * a supplied or kept value is read back, and when the store ends up holding a managed secret
 * that the settings no longer mention.
 */
module SettingsTheorems {
  import opened Options
  import opened JsValues
  import opened SecretNames
  import opened SettingsSecrets

  // ---------------------------------------------------------------- the effect of a change list

  datatype Touch = Untouched | Removed | Holds(text: string)

  function TouchOf(c: Change): Touch {
    match c
    case Write(_, t) => Holds(t)
    case Remove(_) => Removed
  }

  /** The last change of the list that names `n`. */
  function Effect(changes: seq<Change>, n: string): Touch {
    if changes == [] then Untouched
    else
      var c := changes[|changes| - 1];
      if c.name == n then TouchOf(c) else Effect(changes[..|changes| - 1], n)
  }

  function After(before: Option<string>, touch: Touch): Option<string> {
    match touch
    case Untouched => before
    case Removed => None
    case Holds(t) => Some(t)
  }

  lemma {:induction false} AppliedLookup(store: Secrets, changes: seq<Change>, n: string)
    ensures Lookup(Applied(store, changes), n) == After(Lookup(store, n), Effect(changes, n))
  {
    if changes != [] {
      AppliedLookup(store, changes[..|changes| - 1], n);
    }
  }

  lemma {:induction false} EffectConcat(a: seq<Change>, b: seq<Change>, n: string)
    ensures Effect(a + b, n) == if Effect(b, n).Untouched? then Effect(a, n) else Effect(b, n)
  {
    if b == [] {
      assert a + b == a;
    } else {
      assert (a + b)[..|a + b| - 1] == a + b[..|b| - 1];
      EffectConcat(a, b[..|b| - 1], n);
    }
  }

  predicate OnlyRemovals(changes: seq<Change>) {
    forall c :: c in changes ==> c.Remove?
  }

  lemma {:induction false} RemovalEffect(changes: seq<Change>, n: string)
    requires OnlyRemovals(changes)
    ensures Effect(changes, n) == if Remove(n) in changes then Removed else Untouched
  {
    if changes != [] {
      var front, c := changes[..|changes| - 1], changes[|changes| - 1];
      assert c in changes;
      assert changes == front + [c];
      RemovalEffect(front, n);
    }
  }

  lemma {:induction false} EffectIsMember(changes: seq<Change>, n: string)
    ensures Effect(changes, n).Holds? ==> Write(n, Effect(changes, n).text) in changes
    ensures Effect(changes, n).Untouched? <==> forall c :: c in changes ==> c.name != n
  {
    if changes != [] {
      var front, c := changes[..|changes| - 1], changes[|changes| - 1];
      assert changes == front + [c];
      EffectIsMember(front, n);
    }
  }

  // ---------------------------------------------------------------- what each list contains

  lemma {:induction false} EnvWritesMembers(cur: seq<Entry<Instance>>, os: seq<Owned>, c: Change)
    ensures c in EnvWrites(cur, os)
            <==> exists o :: o in os && Puts(cur, o) && c == Write(o.Secret(), Supplied(cur, o).value)
  {
    if os != [] {
      var front, o := os[..|os| - 1], os[|os| - 1];
      assert os == front + [o];
      EnvWritesMembers(cur, front, c);
    }
  }

  lemma {:induction false} EnvRemovalsMembers(cur: seq<Entry<Instance>>, os: seq<Owned>, c: Change)
    ensures c in EnvRemovals(cur, os) <==> exists o :: o in os && Clears(cur, o) && c == Remove(o.Secret())
  {
    if os != [] {
      var front, o := os[..|os| - 1], os[|os| - 1];
      assert os == front + [o];
      EnvRemovalsMembers(cur, front, c);
    }
  }

  lemma {:induction false} SensitiveNamesMembers(os: seq<Owned>, n: string)
    ensures n in SensitiveNames(os) <==> exists o :: o in os && o.v.sensitive && o.Secret() == n
  {
    if os != [] {
      var front, o := os[..|os| - 1], os[|os| - 1];
      assert os == front + [o];
      SensitiveNamesMembers(front, n);
    }
  }

  lemma {:induction false} StaleRemovalsMembers(kept: set<string>, os: seq<Owned>, c: Change)
    ensures c in StaleRemovals(kept, os)
            <==> exists o :: o in os && o.v.sensitive && o.Secret() !in kept && c == Remove(o.Secret())
  {
    if os != [] {
      var front, o := os[..|os| - 1], os[|os| - 1];
      assert os == front + [o];
      StaleRemovalsMembers(kept, front, c);
    }
  }

  predicate SourcePuts(e: Entry<Source>) {
    e.item.managementKey != "" && e.item.managementKey != KEY_REDACTED
  }

  lemma {:induction false} SourceWritesMembers(es: seq<Entry<Source>>, c: Change)
    ensures c in SourceWrites(es)
            <==> exists e :: e in es && SourcePuts(e) && c == Write(SourceName(e.id), e.item.managementKey)
  {
    if es != [] {
      var front, e := es[..|es| - 1], es[|es| - 1];
      assert es == front + [e];
      SourceWritesMembers(front, c);
    }
  }

  lemma {:induction false} SourceRemovalsMembers(es: seq<Entry<Source>>, c: Change)
    ensures c in SourceRemovals(es)
            <==> exists e :: e in es && e.item.managementKey == "" && c == Remove(SourceName(e.id))
  {
    if es != [] {
      var front, e := es[..|es| - 1], es[|es| - 1];
      assert es == front + [e];
      SourceRemovalsMembers(front, c);
    }
  }

  lemma {:induction false} StaleSourcesMembers(next: seq<Entry<Source>>, es: seq<Entry<Source>>, c: Change)
    ensures c in StaleSources(next, es)
            <==> exists e :: e in es && !Finds(next, e.id) && c == Remove(SourceName(e.id))
  {
    if es != [] {
      var front, e := es[..|es| - 1], es[|es| - 1];
      assert es == front + [e];
      StaleSourcesMembers(next, front, c);
    }
  }

  lemma {:induction false} RemovalsMembers(cur: Settings, next: Settings, c: Change)
    ensures c in Removals(cur, next) ==> c.Remove?
    ensures c in Removals(cur, next) <==>
      || c in EnvRemovals(cur.instances, AllOwned(next.instances))
      || c in StaleRemovals(SensitiveNames(AllOwned(next.instances)), AllOwned(cur.instances))
      || c in SourceRemovals(next.sources)
      || c in StaleSources(next.sources, cur.sources)
  {
    EnvRemovalsMembers(cur.instances, AllOwned(next.instances), c);
    StaleRemovalsMembers(SensitiveNames(AllOwned(next.instances)), AllOwned(cur.instances), c);
    SourceRemovalsMembers(next.sources, c);
    StaleSourcesMembers(next.sources, cur.sources, c);
  }

  /** Removals come last, so one of them decides; otherwise the last write does. */
  lemma {:induction false} ChangesEffect(cur: Settings, next: Settings, n: string)
    ensures Effect(Changes(cur, next), n)
            == if Remove(n) in Removals(cur, next) then Removed else Effect(Writes(cur, next), n)
  {
    forall c | c in Removals(cur, next) ensures c.Remove? {
      RemovalsMembers(cur, next, c);
    }
    RemovalEffect(Removals(cur, next), n);
    EffectConcat(Writes(cur, next), Removals(cur, next), n);
  }

  // ---------------------------------------------------------------- where one variable's secret ends up

  predicate Same(o: Owned, p: Owned) {
    o.id == p.id && o.v.name == p.v.name
  }

  /** The text of the last entry for the same instance and name that supplies one. */
  function LastPut(cur: seq<Entry<Instance>>, os: seq<Owned>, o: Owned): Touch {
    if os == [] then Untouched
    else
      var p := os[|os| - 1];
      if Same(o, p) && Puts(cur, p) then Holds(Supplied(cur, p).value)
      else LastPut(cur, os[..|os| - 1], o)
  }

  lemma {:induction false} EnvWritesEffect(cur: seq<Entry<Instance>>, os: seq<Owned>, o: Owned)
    requires SlugOwners(os) && Slug(o.id)
    ensures Effect(EnvWrites(cur, os), o.Secret()) == LastPut(cur, os, o)
  {
    if os != [] {
      var front, p := os[..|os| - 1], os[|os| - 1];
      EnvWritesEffect(cur, front, o);
      var ws := EnvWrites(cur, os);
      if Puts(cur, p) {
        assert ws == EnvWrites(cur, front) + [Write(p.Secret(), Supplied(cur, p).value)];
        assert ws[..|ws| - 1] == EnvWrites(cur, front);
        if p.Secret() == o.Secret() {
          EnvNameInjective(p.id, p.v.name, o.id, o.v.name);
        }
      } else {
        assert ws == EnvWrites(cur, front);
      }
    }
  }

  /** Some entry for the same instance and name clears the secret. */
  predicate SomeClears(cur: seq<Entry<Instance>>, os: seq<Owned>, o: Owned) {
    exists p :: p in os && Same(o, p) && Clears(cur, p)
  }

  /** What the store holds for a sensitive variable once the change list has been applied. */
  function Outcome(cur: Settings, next: Settings, store: Secrets, o: Owned): Option<string> {
    var os := AllOwned(next.instances);
    if SomeClears(cur.instances, os, o) then None
    else After(Lookup(store, o.Secret()), LastPut(cur.instances, os, o))
  }

  lemma FinalSecret(cur: Settings, next: Settings, store: Secrets, o: Owned)
    requires WellFormed(cur) && WellFormed(next)
    requires o in AllOwned(next.instances) && o.v.sensitive
    ensures Lookup(Applied(store, Changes(cur, next)), o.Secret()) == Outcome(cur, next, store, o)
  {
    var os, n := AllOwned(next.instances), o.Secret();
    OwnersAreSlugs(next.instances);
    OwnersAreSlugs(cur.instances);
    var k :| 0 <= k < |os| && os[k] == o;
    assert Slug(o.id);
    AppliedLookup(store, Changes(cur, next), n);
    ChangesEffect(cur, next, n);
    EnvWritesEffect(cur.instances, os, o);
    SourceListsMiss(cur, next, o);
    EffectConcat(EnvWrites(cur.instances, os), SourceWrites(next.sources), n);
    EnvRemovalHits(cur, next, o);
  }

  /** No change of a usage-limit source ever names a provider variable's secret. */
  lemma SourceListsMiss(cur: Settings, next: Settings, o: Owned)
    ensures Effect(SourceWrites(next.sources), o.Secret()).Untouched?
    ensures Remove(o.Secret()) !in SourceRemovals(next.sources)
    ensures Remove(o.Secret()) !in StaleSources(next.sources, cur.sources)
  {
    var n := o.Secret();
    forall e: Entry<Source> ensures SourceName(e.id) != n {
      FamiliesDisjoint(o.id, o.v.name, e.id);
    }
    forall c | c in SourceWrites(next.sources) ensures c.name != n {
      SourceWritesMembers(next.sources, c);
    }
    EffectIsMember(SourceWrites(next.sources), n);
    SourceRemovalsMembers(next.sources, Remove(n));
    StaleSourcesMembers(next.sources, cur.sources, Remove(n));
  }

  /** A sensitive variable of the next settings loses its secret only to an entry that clears it. */
  lemma EnvRemovalHits(cur: Settings, next: Settings, o: Owned)
    requires WellFormed(next)
    requires o in AllOwned(next.instances) && o.v.sensitive
    ensures Remove(o.Secret()) in Removals(cur, next)
            <==> SomeClears(cur.instances, AllOwned(next.instances), o)
  {
    var os, n := AllOwned(next.instances), o.Secret();
    OwnersAreSlugs(next.instances);
    RemovalsMembers(cur, next, Remove(n));
    SourceListsMiss(cur, next, o);
    SensitiveNamesMembers(os, n);
    StaleRemovalsMembers(SensitiveNames(os), AllOwned(cur.instances), Remove(n));
    EnvRemovalsMembers(cur.instances, os, Remove(n));
    forall p | p in os && p.Secret() == n ensures Same(o, p) {
      EnvNameInjective(p.id, p.v.name, o.id, o.v.name);
    }
  }

  // ---------------------------------------------------------------- round trips

  /** The persisted settings read back through the store the change list leaves. */
  function RoundTripped(cur: Settings, next: Settings, store: Secrets): Settings {
    Materialised(Applied(store, Changes(cur, next)), Persisted(cur, next))
  }

  /** One variable after an update: persisted, then materialised. */
  function RoundTrippedVariable(cur: Settings, next: Settings, store: Secrets, o: Owned): Variable {
    MaterialisedVariable(Applied(store, Changes(cur, next)), Owned(o.id, PersistedVariable(cur.instances, o)))
  }

  /** Owners line up: the k-th variable in is the k-th variable out. */
  lemma {:induction false} RoundTrippedOwned(cur: Settings, next: Settings, store: Secrets, k: nat)
    requires k < |AllOwned(next.instances)|
    ensures |AllOwned(RoundTripped(cur, next, store).instances)| == |AllOwned(next.instances)|
    ensures AllOwned(RoundTripped(cur, next, store).instances)[k]
            == Owned(AllOwned(next.instances)[k].id,
                     RoundTrippedVariable(cur, next, store, AllOwned(next.instances)[k]))
  {
    OwnedOfMapped(Persister(cur.instances), next.instances);
    OwnedOfMapped(Materialiser(Applied(store, Changes(cur, next))), Persisted(cur, next).instances);
  }

  lemma {:induction false} VariableReadBack(cur: Settings, next: Settings, store: Secrets, o: Owned)
    requires WellFormed(cur) && WellFormed(next)
    requires o in AllOwned(next.instances)
    ensures var r := RoundTrippedVariable(cur, next, store, o);
            && r.name == o.v.name && r.sensitive == o.v.sensitive
            && r.value == if !o.v.sensitive then o.v.value
                          else if Clears(cur.instances, o) then ""
                          else TextOf(Outcome(cur, next, store, o))
  {
    PersistThenRead(cur.instances, o, Applied(store, Changes(cur, next)));
    if o.v.sensitive {
      FinalSecret(cur, next, store, o);
    }
  }

  lemma PersistThenRead(cur: seq<Entry<Instance>>, o: Owned, after: Secrets)
    ensures var r := MaterialisedVariable(after, Owned(o.id, PersistedVariable(cur, o)));
            && r.name == o.v.name && r.sensitive == o.v.sensitive
            && r.value == if !o.v.sensitive then o.v.value
                          else if Clears(cur, o) then ""
                          else TextOf(Lookup(after, o.Secret()))
  {
  }

  function TextOf(stored: Option<string>): string {
    match stored
    case Some(t) => Decoded(t)
    case None => ""
  }

  /**
   * The value of every variable after an update, for any settings whatever: plain ones keep
   * theirs, cleared ones are empty, all others read what the change list left in the store.
   */
  lemma {:induction false} ReadBack(cur: Settings, next: Settings, store: Secrets, k: nat)
    requires WellFormed(cur) && WellFormed(next)
    requires k < |AllOwned(next.instances)|
    ensures |AllOwned(RoundTripped(cur, next, store).instances)| == |AllOwned(next.instances)|
    ensures var o := AllOwned(next.instances)[k];
            var r := AllOwned(RoundTripped(cur, next, store).instances)[k];
            && Same(o, r) && r.v.sensitive == o.v.sensitive
            && r.v.value == if !o.v.sensitive then o.v.value
                            else if Clears(cur.instances, o) then ""
                            else TextOf(Outcome(cur, next, store, o))
  {
    RoundTrippedOwned(cur, next, store, k);
    VariableReadBack(cur, next, store, AllOwned(next.instances)[k]);
  }

  /** What the client asked for: its own text, or the text held before where it sent the marker. */
  function Wanted(cur: Settings, store: Secrets, o: Owned): string {
    if !o.v.sensitive then o.v.value
    else match Supplied(cur.instances, o)
      case Some(t) => Decoded(t)
      case None => ReadSecret(store, o.Secret())
  }

  lemma {:induction false} LastPutUnique(cur: seq<Entry<Instance>>, os: seq<Owned>, k: nat)
    requires k < |os| && DistinctNames(os)
    ensures LastPut(cur, os, os[k])
            == if Puts(cur, os[k]) then Holds(Supplied(cur, os[k]).value) else Untouched
    decreases |os|
  {
    var front, p := os[..|os| - 1], os[|os| - 1];
    if k < |front| {
      LastPutUnique(cur, front, k);
    } else {
      LastPutMiss(cur, front, p);
    }
  }

  lemma {:induction false} LastPutMiss(cur: seq<Entry<Instance>>, os: seq<Owned>, o: Owned)
    requires forall j :: 0 <= j < |os| ==> !Same(o, os[j])
    ensures LastPut(cur, os, o).Untouched?
  {
    if os != [] {
      LastPutMiss(cur, os[..|os| - 1], o);
    }
  }

  /**
   * Round trip: when no instance lists a name twice, every variable reads back as the client
   * asked, whatever the store and the current settings were.
   */
  lemma {:induction false} DistinctNamesRoundTrip(cur: Settings, next: Settings, store: Secrets, k: nat)
    requires WellFormed(cur) && WellFormed(next)
    requires k < |AllOwned(next.instances)| && DistinctNames(AllOwned(next.instances))
    ensures |AllOwned(RoundTripped(cur, next, store).instances)| == |AllOwned(next.instances)|
    ensures AllOwned(RoundTripped(cur, next, store).instances)[k].v.value
            == Wanted(cur, store, AllOwned(next.instances)[k])
  {
    ReadBack(cur, next, store, k);
    DistinctOutcome(cur, next, store, k);
  }

  lemma DistinctOutcome(cur: Settings, next: Settings, store: Secrets, k: nat)
    requires k < |AllOwned(next.instances)| && DistinctNames(AllOwned(next.instances))
    ensures var o := AllOwned(next.instances)[k];
            Outcome(cur, next, store, o)
            == if Clears(cur.instances, o) then None
               else if Puts(cur.instances, o) then Some(Supplied(cur.instances, o).value)
               else Lookup(store, o.Secret())
  {
    var os := AllOwned(next.instances);
    LastPutUnique(cur.instances, os, k);
    if SomeClears(cur.instances, os, os[k]) {
      var p :| p in os && Same(os[k], p) && Clears(cur.instances, p);
      var j :| 0 <= j < |os| && os[j] == p;
      assert j == k;
    }
  }

  /** A text comes back unchanged exactly when it does not begin with a byte order mark. */
  lemma DecodedExactly(text: string)
    ensures Decoded(text) == text <==> !(|text| > 0 && text[0] == BOM)
  {
    if |text| > 0 && text[0] == BOM {
      assert |text[1..]| < |text|;
    }
  }

  /**
   * Whether the entry's own wish decides what its name holds after an update: a plain or a
   * cleared entry always has its way; any other needs that no entry of its name clears the
   * secret and that the last one to supply a text, if any does, supplies the wanted one.
   */
  predicate Prevails(cur: Settings, next: Settings, store: Secrets, o: Owned) {
    var os := AllOwned(next.instances);
    || Clears(cur.instances, o)
    || if SomeClears(cur.instances, os, o) then Wanted(cur, store, o) == ""
       else TextOf(After(Lookup(store, o.Secret()), LastPut(cur.instances, os, o))) == Wanted(cur, store, o)
  }

  /**
   * Round trip without distinct names, exactly: an entry reads back as its client asked if and
   * only if it prevails over the other entries of its name, whatever it sent.
   */
  lemma {:induction false} DuplicateNamesRoundTrip(cur: Settings, next: Settings, store: Secrets, k: nat)
    requires WellFormed(cur) && WellFormed(next)
    requires k < |AllOwned(next.instances)|
    ensures |AllOwned(RoundTripped(cur, next, store).instances)| == |AllOwned(next.instances)|
    ensures AllOwned(RoundTripped(cur, next, store).instances)[k].v.value
            == Wanted(cur, store, AllOwned(next.instances)[k])
            <==> Prevails(cur, next, store, AllOwned(next.instances)[k])
  {
    var o := AllOwned(next.instances)[k];
    ReadBack(cur, next, store, k);
    if o.v.sensitive && Clears(cur.instances, o) {
      ClearedWantsNothing(cur, store, o);
    }
  }

  lemma ClearedWantsNothing(cur: Settings, store: Secrets, o: Owned)
    requires o.v.sensitive && Clears(cur.instances, o)
    ensures Wanted(cur, store, o) == ""
  {
  }

  lemma OwnedByOne(e: Entry<Instance>)
    ensures AllOwned([e]) == OwnedBy(e.id, e.item.Env())
  {
    assert [e][..0] == [];
    assert AllOwned([]) == [];
  }

  /** Settings with one instance that lists one name twice. */
  function Twice(v: Variable, w: Variable): Settings {
    Settings([Entry("a", Instance(Some([v, w]), None, None, ""))], [], "")
  }

  lemma TwiceOwned(v: Variable, w: Variable)
    ensures AllOwned(Twice(v, w).instances) == [Owned("a", v), Owned("a", w)]
    ensures WellFormed(Twice(v, w))
  {
    assert SlugChar('a');
    OwnedByOne(Twice(v, w).instances[0]);
    assert OwnedBy("a", [v, w]) == [Owned("a", v), Owned("a", w)];
  }

  const NOTHING := Settings([], [], "")

  lemma NothingIsMarked(o: Owned)
    ensures Supplied(NOTHING.instances, o) == if o.v.Marked() then None else Some(o.v.value)
    ensures WellFormed(NOTHING)
  {
  }

  lemma TwiceReads(v: Variable, w: Variable, store: Secrets)
    requires v.sensitive && !Clears(NOTHING.instances, Owned("a", v))
    ensures |AllOwned(RoundTripped(NOTHING, Twice(v, w), store).instances)| == 2
    ensures AllOwned(RoundTripped(NOTHING, Twice(v, w), store).instances)[0].v.value
            == TextOf(Outcome(NOTHING, Twice(v, w), store, Owned("a", v)))
  {
    TwiceOwned(v, w);
    NothingIsMarked(Owned("a", v));
    ReadBack(NOTHING, Twice(v, w), store, 0);
  }

  lemma TwiceOutcome(v: Variable, w: Variable, store: Secrets)
    requires v.name == w.name
    ensures var first, second := Owned("a", v), Owned("a", w);
            Outcome(NOTHING, Twice(v, w), store, first)
            == if Clears(NOTHING.instances, first) || Clears(NOTHING.instances, second) then None
               else if Puts(NOTHING.instances, second) then Some(Supplied(NOTHING.instances, second).value)
               else if Puts(NOTHING.instances, first) then Some(Supplied(NOTHING.instances, first).value)
               else Lookup(store, first.Secret())
  {
    var first, second := Owned("a", v), Owned("a", w);
    TwiceOwned(v, w);
    assert [first, second] == [] + [first] + [second];
    LastPutSnoc(NOTHING.instances, [], first, first);
    LastPutSnoc(NOTHING.instances, [] + [first], second, first);
    assert SomeClears(NOTHING.instances, [first, second], first)
        <==> Clears(NOTHING.instances, first) || Clears(NOTHING.instances, second) by {
      assert first in [first, second] && second in [first, second];
    }
  }

  lemma LastPutSnoc(cur: seq<Entry<Instance>>, os: seq<Owned>, p: Owned, o: Owned)
    ensures LastPut(cur, os + [p], o)
            == if Same(o, p) && Puts(cur, p) then Holds(Supplied(cur, p).value) else LastPut(cur, os, o)
  {
    assert (os + [p])[..|os|] == os;
  }

  /** The distinctness condition is needed: of two entries for one name the empty one wins. */
  lemma DuplicateLosesItsSecret(store: Secrets)
    ensures var v, w := Variable("KEY", "text", true, None), Variable("KEY", "", true, None);
            && |AllOwned(RoundTripped(NOTHING, Twice(v, w), store).instances)| == 2
            && AllOwned(RoundTripped(NOTHING, Twice(v, w), store).instances)[0].v.value == ""
            && Wanted(NOTHING, store, Owned("a", v)) == "text"
  {
    var v, w := Variable("KEY", "text", true, None), Variable("KEY", "", true, None);
    NothingIsMarked(Owned("a", v));
    NothingIsMarked(Owned("a", w));
    TwiceReads(v, w, store);
    TwiceOutcome(v, w, store);
  }

  /** An entry that sends the marker loses too: the other entry's text replaces what it kept. */
  lemma DuplicateReplacesWhatIsKept(store: Secrets)
    requires Lookup(store, EnvName("a", "KEY")) == Some("old")
    ensures var v, w := Variable("KEY", "", true, Some(true)), Variable("KEY", "new", true, None);
            && |AllOwned(RoundTripped(NOTHING, Twice(v, w), store).instances)| == 2
            && AllOwned(RoundTripped(NOTHING, Twice(v, w), store).instances)[0].v.value == "new"
            && Wanted(NOTHING, store, Owned("a", v)) == "old"
  {
    var v, w := Variable("KEY", "", true, Some(true)), Variable("KEY", "new", true, None);
    SecondReplaces(v, w, store);
    assert Decoded("new") == "new" && Decoded("old") == "old";
  }

  lemma SecondReplaces(v: Variable, w: Variable, store: Secrets)
    requires v.sensitive && v.Marked() && w.sensitive && !w.Marked() && w.value != "" && v.name == w.name
    ensures |AllOwned(RoundTripped(NOTHING, Twice(v, w), store).instances)| == 2
    ensures AllOwned(RoundTripped(NOTHING, Twice(v, w), store).instances)[0].v.value == Decoded(w.value)
    ensures Wanted(NOTHING, store, Owned("a", v)) == ReadSecret(store, EnvName("a", v.name))
  {
    NothingIsMarked(Owned("a", v));
    NothingIsMarked(Owned("a", w));
    TwiceReads(v, w, store);
    TwiceOutcome(v, w, store);
  }

  // ---------------------------------------------------------------- usage-limit sources

  lemma {:induction false} SourceWritesEffect(es: seq<Entry<Source>>, i: nat)
    requires i < |es| && DistinctIds(es)
    ensures Effect(SourceWrites(es), SourceName(es[i].id))
            == if SourcePuts(es[i]) then Holds(es[i].item.managementKey) else Untouched
    decreases |es|
  {
    var front, e := es[..|es| - 1], es[|es| - 1];
    var n := SourceName(es[i].id);
    SourceWritesLast(es, n);
    if i < |front| {
      if SourceName(e.id) == n {
        SourceNameInjective(e.id, es[i].id);
      }
      SourceWritesEffect(front, i);
    } else {
      forall j | 0 <= j < |front| ensures SourceName(front[j].id) != n {
        if SourceName(front[j].id) == n {
          SourceNameInjective(front[j].id, e.id);
        }
      }
      SourceWritesMiss(front, n);
    }
  }

  lemma SourceWritesLast(es: seq<Entry<Source>>, n: string)
    requires es != []
    ensures var e := es[|es| - 1];
            Effect(SourceWrites(es), n)
            == if SourcePuts(e) && SourceName(e.id) == n then Holds(e.item.managementKey)
               else Effect(SourceWrites(es[..|es| - 1]), n)
  {
    var front, ws := es[..|es| - 1], SourceWrites(es);
    if SourcePuts(es[|es| - 1]) {
      assert ws[..|ws| - 1] == SourceWrites(front);
    } else {
      assert ws == SourceWrites(front);
    }
  }

  lemma SourceWritesMiss(es: seq<Entry<Source>>, n: string)
    ensures (forall i :: 0 <= i < |es| ==> SourceName(es[i].id) != n) ==> Effect(SourceWrites(es), n).Untouched?
    ensures (forall id, name :: EnvName(id, name) != n) || Effect(SourceWrites(es), n).Untouched?
  {
    forall c | c in SourceWrites(es) && c.name == n
      ensures exists i :: 0 <= i < |es| && SourceName(es[i].id) == n
    {
      SourceWritesMembers(es, c);
    }
    EffectIsMember(SourceWrites(es), n);
    forall id, name | EnvName(id, name) == n ensures forall i :: 0 <= i < |es| ==> SourceName(es[i].id) != n {
      forall i | 0 <= i < |es| ensures SourceName(es[i].id) != n {
        FamiliesDisjoint(id, name, es[i].id);
      }
    }
  }

  /** No provider variable's change ever names a usage-limit source's secret. */
  lemma EnvListsMiss(cur: Settings, next: Settings, sourceId: string)
    ensures var n := SourceName(sourceId);
            && Effect(EnvWrites(cur.instances, AllOwned(next.instances)), n).Untouched?
            && Remove(n) !in EnvRemovals(cur.instances, AllOwned(next.instances))
            && Remove(n) !in StaleRemovals(SensitiveNames(AllOwned(next.instances)), AllOwned(cur.instances))
  {
    var n, os := SourceName(sourceId), AllOwned(next.instances);
    forall o: Owned ensures o.Secret() != n {
      FamiliesDisjoint(o.id, o.v.name, sourceId);
    }
    forall c | c in EnvWrites(cur.instances, os) ensures c.name != n {
      EnvWritesMembers(cur.instances, os, c);
    }
    EffectIsMember(EnvWrites(cur.instances, os), n);
    EnvRemovalsMembers(cur.instances, os, Remove(n));
    StaleRemovalsMembers(SensitiveNames(os), AllOwned(cur.instances), Remove(n));
  }

  lemma SourceFinal(cur: Settings, next: Settings, store: Secrets, i: nat)
    requires DistinctIds(next.sources) && i < |next.sources|
    ensures var e := next.sources[i];
            Lookup(Applied(store, Changes(cur, next)), SourceName(e.id))
            == if e.item.managementKey == "" then None
               else if SourcePuts(e) then Some(e.item.managementKey)
               else Lookup(store, SourceName(e.id))
  {
    var e := next.sources[i];
    var n := SourceName(e.id);
    AppliedLookup(store, Changes(cur, next), n);
    ChangesEffect(cur, next, n);
    EnvListsMiss(cur, next, e.id);
    SourceWritesEffect(next.sources, i);
    EffectConcat(EnvWrites(cur.instances, AllOwned(next.instances)), SourceWrites(next.sources), n);
    RemovalsMembers(cur, next, Remove(n));
    SourceRemovalsMembers(next.sources, Remove(n));
    StaleSourcesMembers(next.sources, cur.sources, Remove(n));
    forall d: Entry<Source> | SourceName(d.id) == n ensures d.id == e.id {
      SourceNameInjective(d.id, e.id);
    }
  }

  /** A record holds the entries stored in it, except one under the prototype's name. */
  lemma {:induction false} AssignedMembers(es: seq<Entry<Source>>, e: Entry<Source>)
    ensures e in Assigned(es) <==> e in es && e.id != PROTO
  {
    if es != [] {
      var front, last := es[..|es| - 1], es[|es| - 1];
      assert es == front + [last];
      AssignedMembers(front, e);
    }
  }

  /** Storing the entries of such a record again stores all of them. */
  lemma {:induction false} AssignedKeepsAll(es: seq<Entry<Source>>)
    requires forall e :: e in es ==> e.id != PROTO
    ensures Assigned(es) == es
  {
    if es != [] {
      var front, last := es[..|es| - 1], es[|es| - 1];
      assert last in es && es == front + [last];
      AssignedKeepsAll(front);
      assert Assign(front, last) == front + [last];
    }
  }

  lemma {:induction false} AssignedDistinct(es: seq<Entry<Source>>)
    requires DistinctIds(es)
    ensures DistinctIds(Assigned(es))
  {
    if es != [] {
      var front, last := es[..|es| - 1], es[|es| - 1];
      AssignedDistinct(front);
      forall e | e in Assigned(front) ensures e.id != last.id {
        AssignedMembers(front, e);
      }
    }
  }

  lemma PersistedAreAssigned(es: seq<Entry<Source>>)
    ensures Assigned(PersistedSources(Assigned(es))) == PersistedSources(Assigned(es))
  {
    forall e | e in PersistedSources(Assigned(es)) ensures e.id != PROTO {
      var i :| 0 <= i < |Assigned(es)| && e == PersistedSource(Assigned(es)[i]);
      AssignedMembers(es, Assigned(es)[i]);
    }
    AssignedKeepsAll(PersistedSources(Assigned(es)));
  }

  lemma SourceStored(cur: Settings, next: Settings, store: Secrets, i: nat)
    requires i < |Assigned(next.sources)|
    ensures |RoundTripped(cur, next, store).sources| == |Assigned(next.sources)|
    ensures RoundTripped(cur, next, store).sources[i]
            == MaterialisedSource(Applied(store, Changes(cur, next)), PersistedSource(Assigned(next.sources)[i]))
  {
    PersistedAreAssigned(next.sources);
  }

  lemma SourceReadBack(store: Secrets, e: Entry<Source>, after: Secrets)
    requires e.item.managementKey != "" ==>
      Lookup(after, SourceName(e.id))
      == if SourcePuts(e) then Some(e.item.managementKey) else Lookup(store, SourceName(e.id))
    ensures MaterialisedSource(after, PersistedSource(e)).id == e.id
    ensures MaterialisedSource(after, PersistedSource(e)).item.managementKey
            == if e.item.managementKey == KEY_REDACTED then ReadSecret(store, SourceName(e.id))
               else Decoded(e.item.managementKey)
  {
  }

  /**
   * A key reads back as sent, and the placeholder as the key held before, for every source
   * the update stores: all but one under the prototype's name.
   */
  lemma SourceRoundTrip(cur: Settings, next: Settings, store: Secrets, i: nat)
    requires DistinctIds(next.sources) && i < |Assigned(next.sources)|
    ensures |RoundTripped(cur, next, store).sources| == |Assigned(next.sources)|
    ensures var e := Assigned(next.sources)[i];
            && RoundTripped(cur, next, store).sources[i].id == e.id
            && RoundTripped(cur, next, store).sources[i].item.managementKey
               == if e.item.managementKey == KEY_REDACTED then ReadSecret(store, SourceName(e.id))
                  else Decoded(e.item.managementKey)
  {
    var e := Assigned(next.sources)[i];
    SourceStored(cur, next, store, i);
    AssignedMembers(next.sources, e);
    var j :| 0 <= j < |next.sources| && next.sources[j] == e;
    SourceFinal(cur, next, store, j);
    SourceReadBack(store, e, Applied(store, Changes(cur, next)));
  }

  // ---------------------------------------------------------------- nothing secret is persisted

  predicate NoPlaintext(s: Settings) {
    && (forall o :: o in AllOwned(s.instances) && o.v.sensitive ==> o.v.value == "")
    && (forall e :: e in s.sources ==> e.item.managementKey == "" || e.item.managementKey == KEY_REDACTED)
  }

  lemma PersistedHasNoPlaintext(cur: Settings, next: Settings)
    ensures NoPlaintext(Persisted(cur, next))
  {
    OwnedOfMapped(Persister(cur.instances), next.instances);
  }

  /**
   * What is persisted of each variable, completely: a sensitive one has no text, and the marker
   * unless the update clears it; a plain one keeps its value and has no marker.
   */
  lemma PersistedExactly(cur: Settings, next: Settings, k: nat)
    requires k < |AllOwned(next.instances)|
    ensures |AllOwned(Persisted(cur, next).instances)| == |AllOwned(next.instances)|
    ensures var o := AllOwned(next.instances)[k];
            AllOwned(Persisted(cur, next).instances)[k]
            == Owned(o.id, Variable(o.v.name, if o.v.sensitive then "" else o.v.value, o.v.sensitive,
                                    if o.v.sensitive && !Clears(cur.instances, o) then Some(true) else None))
  {
    OwnedOfMapped(Persister(cur.instances), next.instances);
  }

  // ---------------------------------------------------------------- no orphans

  /** Names the settings service owns in the shared secret store. */
  predicate Managed(n: string) {
    ENV_PREFIX <= n || SOURCE_PREFIX <= n
  }

  predicate Mentioned(s: Settings, n: string) {
    || (exists o :: o in AllOwned(s.instances) && o.v.sensitive && o.v.Marked() && o.Secret() == n)
    || (exists e :: e in s.sources && e.item.managementKey == KEY_REDACTED && SourceName(e.id) == n)
  }

  /** Every managed secret in the store belongs to something the settings still mention. */
  predicate NoOrphans(s: Settings, store: Secrets) {
    forall n :: n in store && Managed(n) ==> Mentioned(s, n)
  }

  lemma WrittenIsMentioned(cur: Settings, next: Settings, n: string)
    requires !Effect(Writes(cur, next), n).Untouched?
    ensures Mentioned(Persisted(cur, next), n)
            || exists e :: e in next.sources && e.id == PROTO && SourcePuts(e) && SourceName(e.id) == n
  {
    var os, es := AllOwned(next.instances), next.sources;
    EffectIsMember(Writes(cur, next), n);
    var c :| c in Writes(cur, next) && c.name == n;
    if c in EnvWrites(cur.instances, os) {
      EnvWritesMembers(cur.instances, os, c);
      var o :| o in os && Puts(cur.instances, o) && c == Write(o.Secret(), Supplied(cur.instances, o).value);
      PersistedOwner(cur, next, o);
    } else {
      SourceWritesMembers(es, c);
      var e :| e in es && SourcePuts(e) && c == Write(SourceName(e.id), e.item.managementKey);
      if e.id != PROTO {
        HeldSourceIsMentioned(cur, next, e);
      }
    }
  }

  lemma PersistedOwner(cur: Settings, next: Settings, o: Owned)
    requires o in AllOwned(next.instances)
    ensures Owned(o.id, PersistedVariable(cur.instances, o)) in AllOwned(Persisted(cur, next).instances)
  {
    OwnedOfMapped(Persister(cur.instances), next.instances);
    var os := AllOwned(next.instances);
    var k :| 0 <= k < |os| && os[k] == o;
    assert AllOwned(Persisted(cur, next).instances)[k] == Owned(o.id, PersistedVariable(cur.instances, o));
  }

  lemma PersistedSourceKept(cur: Settings, next: Settings, e: Entry<Source>)
    requires e in next.sources && e.id != PROTO
    ensures PersistedSource(e) in Persisted(cur, next).sources
  {
    var es := Assigned(next.sources);
    AssignedMembers(next.sources, e);
    var i :| 0 <= i < |es| && es[i] == e;
    assert Persisted(cur, next).sources[i] == PersistedSource(e);
  }

  lemma PersistedSourceIds(cur: Settings, next: Settings, e: Entry<Source>)
    requires e in Persisted(cur, next).sources
    ensures e.id != PROTO && HasId(next.sources, e.id)
  {
    var es := Assigned(next.sources);
    var i :| 0 <= i < |es| && e == PersistedSource(es[i]);
    AssignedMembers(next.sources, es[i]);
    var j :| 0 <= j < |next.sources| && next.sources[j] == es[i];
  }

  lemma KeptVariableIsMentioned(cur: Settings, next: Settings, o: Owned)
    requires o in AllOwned(cur.instances) && o.v.sensitive
    requires Remove(o.Secret()) !in Removals(cur, next)
    requires Effect(Writes(cur, next), o.Secret()).Untouched?
    ensures Mentioned(Persisted(cur, next), o.Secret())
  {
    var p := KeptVariableReappears(cur, next, o);
    UnchangedIsMarked(cur, next, p);
    PersistedOwner(cur, next, p);
    assert Owned(p.id, PersistedVariable(cur.instances, p)).Secret() == o.Secret();
  }

  lemma KeptVariableReappears(cur: Settings, next: Settings, o: Owned) returns (p: Owned)
    requires o in AllOwned(cur.instances) && o.v.sensitive
    requires Remove(o.Secret()) !in Removals(cur, next)
    ensures p in AllOwned(next.instances) && p.v.sensitive && p.Secret() == o.Secret()
  {
    var os, n := AllOwned(next.instances), o.Secret();
    RemovalsMembers(cur, next, Remove(n));
    StaleRemovalsMembers(SensitiveNames(os), AllOwned(cur.instances), Remove(n));
    SensitiveNamesMembers(os, n);
    p :| p in os && p.v.sensitive && p.Secret() == n;
  }

  lemma UnchangedIsMarked(cur: Settings, next: Settings, p: Owned)
    requires p in AllOwned(next.instances) && p.v.sensitive
    requires Remove(p.Secret()) !in Removals(cur, next)
    requires Effect(Writes(cur, next), p.Secret()).Untouched?
    ensures !Clears(cur.instances, p) && !Puts(cur.instances, p)
  {
    var os, n := AllOwned(next.instances), p.Secret();
    RemovalsMembers(cur, next, Remove(n));
    EnvRemovalsMembers(cur.instances, os, Remove(n));
    if Puts(cur.instances, p) {
      var c := Write(n, Supplied(cur.instances, p).value);
      EnvWritesMembers(cur.instances, os, c);
      assert c in Writes(cur, next);
      EffectIsMember(Writes(cur, next), n);
    }
  }

  /**
   * The names of usage-limit sources that an update treats wrongly do no harm: no dropped
   * source with an inherited name has a stored key, and a source under the prototype's name,
   * which the settings cannot hold, is cleared or has no key at all.
   */
  predicate SourcesReleased(cur: Settings, next: Settings, store: Secrets) {
    && (forall e :: e in cur.sources && e.id in INHERITED && !HasId(next.sources, e.id) ==>
          SourceName(e.id) !in store)
    && (ProtoClears(next.sources) || (SourceName(PROTO) !in store && !ProtoPuts(next.sources)))
  }

  predicate ProtoClears(es: seq<Entry<Source>>) {
    exists e :: e in es && e.id == PROTO && e.item.managementKey == ""
  }

  predicate ProtoPuts(es: seq<Entry<Source>>) {
    exists e :: e in es && e.id == PROTO && SourcePuts(e)
  }

  lemma ClearedPrototype(cur: Settings, next: Settings)
    requires ProtoClears(next.sources)
    ensures Remove(SourceName(PROTO)) in Removals(cur, next)
  {
    SourceRemovalsMembers(next.sources, Remove(SourceName(PROTO)));
    RemovalsMembers(cur, next, Remove(SourceName(PROTO)));
  }

  lemma KeptSourceIsMentioned(cur: Settings, next: Settings, store: Secrets, e: Entry<Source>)
    requires e in cur.sources && SourceName(e.id) in store && SourcesReleased(cur, next, store)
    requires Remove(SourceName(e.id)) !in Removals(cur, next)
    ensures Mentioned(Persisted(cur, next), SourceName(e.id))
  {
    var d := KeptSourceReappears(cur, next, store, e);
    if ProtoClears(next.sources) {
      ClearedPrototype(cur, next);
    }
    HeldSourceIsMentioned(cur, next, d);
  }

  lemma KeptSourceReappears(cur: Settings, next: Settings, store: Secrets, e: Entry<Source>) returns (d: Entry<Source>)
    requires e in cur.sources && SourceName(e.id) in store && SourcesReleased(cur, next, store)
    requires Remove(SourceName(e.id)) !in Removals(cur, next)
    ensures d in next.sources && d.id == e.id && d.item.managementKey != ""
  {
    var n := SourceName(e.id);
    RemovalsMembers(cur, next, Remove(n));
    StaleSourcesMembers(next.sources, cur.sources, Remove(n));
    var i :| 0 <= i < |next.sources| && next.sources[i].id == e.id;
    d := next.sources[i];
    SourceRemovalsMembers(next.sources, Remove(n));
  }

  lemma HeldSourceIsMentioned(cur: Settings, next: Settings, d: Entry<Source>)
    requires d in next.sources && d.id != PROTO && d.item.managementKey != ""
    ensures Mentioned(Persisted(cur, next), SourceName(d.id))
  {
    PersistedSourceKept(cur, next, d);
    assert PersistedSource(d).item.managementKey == KEY_REDACTED && PersistedSource(d).id == d.id;
  }

  lemma {:induction false} KeptIsMentioned(cur: Settings, next: Settings, store: Secrets, n: string)
    requires Mentioned(cur, n) && Remove(n) !in Removals(cur, next)
    requires n in store && SourcesReleased(cur, next, store)
    requires Effect(Writes(cur, next), n).Untouched?
    ensures Mentioned(Persisted(cur, next), n)
  {
    if o :| o in AllOwned(cur.instances) && o.v.sensitive && o.v.Marked() && o.Secret() == n {
      KeptVariableIsMentioned(cur, next, o);
    } else {
      var e :| e in cur.sources && e.item.managementKey == KEY_REDACTED && SourceName(e.id) == n;
      KeptSourceIsMentioned(cur, next, store, e);
    }
  }

  /** A name whose last change is a write belongs to something the settings mention. */
  lemma WrittenStays(cur: Settings, next: Settings, store: Secrets, n: string)
    requires !Effect(Writes(cur, next), n).Untouched? && Remove(n) !in Removals(cur, next)
    requires SourcesReleased(cur, next, store)
    ensures Mentioned(Persisted(cur, next), n)
  {
    WrittenIsMentioned(cur, next, n);
    if ProtoClears(next.sources) {
      ClearedPrototype(cur, next);
    }
  }

  lemma ReleasedLeavesNoOrphans(cur: Settings, next: Settings, store: Secrets)
    requires NoOrphans(cur, store) && SourcesReleased(cur, next, store)
    ensures NoOrphans(Persisted(cur, next), Applied(store, Changes(cur, next)))
  {
    var after := Applied(store, Changes(cur, next));
    forall n | n in after && Managed(n) ensures Mentioned(Persisted(cur, next), n) {
      AppliedLookup(store, Changes(cur, next), n);
      ChangesEffect(cur, next, n);
      if Effect(Writes(cur, next), n).Untouched? {
        KeptIsMentioned(cur, next, store, n);
      } else {
        WrittenStays(cur, next, store, n);
      }
    }
  }

  /** A source the new settings do not hold is not mentioned by them. */
  lemma UnheldIsUnmentioned(cur: Settings, next: Settings, id: string)
    requires id == PROTO || !HasId(next.sources, id)
    ensures !Mentioned(Persisted(cur, next), SourceName(id))
  {
    var stored, n := Persisted(cur, next), SourceName(id);
    forall o: Owned ensures o.Secret() != n {
      FamiliesDisjoint(o.id, o.v.name, id);
    }
    forall e | e in stored.sources ensures SourceName(e.id) != n {
      PersistedSourceIds(cur, next, e);
      if SourceName(e.id) == n {
        SourceNameInjective(e.id, id);
      }
    }
  }

  /** Nothing removes the key of a source with an inherited name unless an entry of that name is empty. */
  lemma InheritedIsNotRemoved(cur: Settings, next: Settings, id: string)
    requires id in INHERITED
    requires forall e :: e in next.sources && e.id == id ==> e.item.managementKey != ""
    ensures Remove(SourceName(id)) !in Removals(cur, next)
  {
    var n := SourceName(id);
    RemovalsMembers(cur, next, Remove(n));
    EnvListsMiss(cur, next, id);
    SourceRemovalsMembers(next.sources, Remove(n));
    StaleSourcesMembers(next.sources, cur.sources, Remove(n));
    forall e: Entry<Source> | SourceName(e.id) == n ensures e.id == id {
      SourceNameInjective(e.id, id);
    }
  }

  /** So a stored or supplied key of such a name is in the store afterwards. */
  lemma InheritedStays(cur: Settings, next: Settings, store: Secrets, id: string)
    requires id in INHERITED
    requires forall e :: e in next.sources && e.id == id ==> e.item.managementKey != ""
    requires SourceName(id) in store || exists e :: e in next.sources && e.id == id && SourcePuts(e)
    ensures SourceName(id) in Applied(store, Changes(cur, next))
  {
    var n := SourceName(id);
    InheritedIsNotRemoved(cur, next, id);
    AppliedLookup(store, Changes(cur, next), n);
    ChangesEffect(cur, next, n);
    EffectIsMember(Writes(cur, next), n);
    if e :| e in next.sources && e.id == id && SourcePuts(e) {
      SourceWritesMembers(next.sources, Write(n, e.item.managementKey));
      assert Write(n, e.item.managementKey) in Writes(cur, next);
    }
    NeverRemovedByWrites(cur, next, n);
  }

  lemma NeverRemovedByWrites(cur: Settings, next: Settings, n: string)
    ensures !Effect(Writes(cur, next), n).Removed?
  {
    forall c | c in Writes(cur, next) ensures c.Write? {
      EnvWritesMembers(cur.instances, AllOwned(next.instances), c);
      SourceWritesMembers(next.sources, c);
    }
    OnlyWritesNeverRemove(Writes(cur, next), n);
  }

  lemma {:induction false} OnlyWritesNeverRemove(changes: seq<Change>, n: string)
    requires forall c :: c in changes ==> c.Write?
    ensures !Effect(changes, n).Removed?
  {
    if changes != [] {
      OnlyWritesNeverRemove(changes[..|changes| - 1], n);
    }
  }

  lemma OrphanOf(cur: Settings, next: Settings, store: Secrets, id: string)
    requires id in INHERITED && (id == PROTO || !HasId(next.sources, id))
    requires forall e :: e in next.sources && e.id == id ==> e.item.managementKey != ""
    requires SourceName(id) in store || exists e :: e in next.sources && e.id == id && SourcePuts(e)
    ensures !NoOrphans(Persisted(cur, next), Applied(store, Changes(cur, next)))
  {
    InheritedStays(cur, next, store, id);
    UnheldIsUnmentioned(cur, next, id);
    assert Managed(SourceName(id));
  }

  /**
   * One update leaves no orphan behind, even when instances list a name several times, exactly
   * when the sources with inherited names are released.
   */
  lemma UpdateOrphansExactly(cur: Settings, next: Settings, store: Secrets)
    requires NoOrphans(cur, store)
    ensures NoOrphans(Persisted(cur, next), Applied(store, Changes(cur, next)))
            <==> SourcesReleased(cur, next, store)
  {
    if SourcesReleased(cur, next, store) {
      ReleasedLeavesNoOrphans(cur, next, store);
    } else if e :| e in cur.sources && e.id in INHERITED && !HasId(next.sources, e.id) && SourceName(e.id) in store {
      OrphanOf(cur, next, store, e.id);
    } else {
      OrphanOf(cur, next, store, PROTO);
    }
  }

  lemma OneSource(e: Entry<Source>)
    ensures WellFormed(Settings([], [e], ""))
    ensures Persisted(Settings([], [e], ""), NOTHING) == NOTHING
    ensures e.id == PROTO ==> Persisted(NOTHING, Settings([], [e], "")) == NOTHING
  {
    assert [e][..0] == [];
    assert Assigned([]) == [];
    assert Assigned([e]) == Assign([], e);
  }

  lemma OneSourceMentioned(e: Entry<Source>, key: string)
    requires e.item.managementKey == KEY_REDACTED
    ensures NoOrphans(Settings([], [e], ""), map[SourceName(e.id) := key])
  {
    var s := Settings([], [e], "");
    assert e in s.sources;
    assert Mentioned(s, SourceName(e.id));
  }

  /**
   * Removing a source of an inherited name, like "constructor", leaves its key in the store
   * although the settings no longer mention it.
   */
  lemma InheritedNameLeavesKey(id: string, key: string)
    requires id in INHERITED
    ensures var cur, store := Settings([], [Entry(id, Source(KEY_REDACTED, ""))], ""), map[SourceName(id) := key];
            && WellFormed(cur) && NoOrphans(cur, store)
            && Persisted(cur, NOTHING) == NOTHING
            && !NoOrphans(NOTHING, Applied(store, Changes(cur, NOTHING)))
  {
    var e := Entry(id, Source(KEY_REDACTED, ""));
    var cur, store := Settings([], [e], ""), map[SourceName(id) := key];
    OneSource(e);
    OneSourceMentioned(e, key);
    OrphanOf(cur, NOTHING, store, id);
  }

  /** A source under the prototype's name is dropped from the settings although its key is stored. */
  lemma PrototypeNameIsDropped(key: string)
    requires key != "" && key != KEY_REDACTED
    ensures var next := Settings([], [Entry(PROTO, Source(key, ""))], "");
            && WellFormed(next) && Persisted(NOTHING, next) == NOTHING
            && !NoOrphans(NOTHING, Applied(map[], Changes(NOTHING, next)))
  {
    var e := Entry(PROTO, Source(key, ""));
    var next := Settings([], [e], "");
    OneSource(e);
    assert e in next.sources && SourcePuts(e);
    OrphanOf(NOTHING, next, map[], PROTO);
  }

  /** Secrets of other services in the same store are never touched. */
  lemma ForeignSecretsUntouched(cur: Settings, next: Settings, store: Secrets, n: string)
    requires !Managed(n)
    ensures Lookup(Applied(store, Changes(cur, next)), n) == Lookup(store, n)
  {
    var changes := Changes(cur, next);
    AppliedLookup(store, changes, n);
    forall c | c in changes ensures c.name != n {
      ChangeIsManaged(cur, next, c);
    }
    EffectIsMember(changes, n);
  }

  lemma ChangeIsManaged(cur: Settings, next: Settings, c: Change)
    requires c in Changes(cur, next)
    ensures Managed(c.name)
  {
    var os := AllOwned(next.instances);
    assert forall o: Owned :: ENV_PREFIX <= o.Secret();
    assert forall id: string :: SOURCE_PREFIX <= SourceName(id);
    EnvWritesMembers(cur.instances, os, c);
    SourceWritesMembers(next.sources, c);
    RemovalsMembers(cur, next, c);
    EnvRemovalsMembers(cur.instances, os, c);
    StaleRemovalsMembers(SensitiveNames(os), AllOwned(cur.instances), c);
    SourceRemovalsMembers(next.sources, c);
    StaleSourcesMembers(next.sources, cur.sources, c);
  }

  // ---------------------------------------------------------------- a client echoing its snapshot

  /** The update a client causes by sending back the redacted settings it was shown. */
  function Echo(s: Settings, store: Secrets): Settings {
    RedactedForClient(Materialised(store, s))
  }

  /** A secret text the settings hold themselves, not yet in the store. */
  predicate InlineVariable(v: Variable) {
    v.sensitive && !v.Marked() && v.value != ""
  }

  lemma {:induction false} FindLastUnique(id: string, env: seq<Variable>, i: nat)
    requires i < |env| && DistinctNames(OwnedBy(id, env))
    ensures FindLast(env, env[i].name) == Some(env[i])
    decreases |env|
  {
    var last := |env| - 1;
    var os := OwnedBy(id, env);
    if i < last {
      assert os[i].v.name != os[last].v.name;
      assert OwnedBy(id, env[..last]) == os[..last];
      FindLastUnique(id, env[..last], i);
    }
  }

  lemma {:induction false} EnvironmentFound(entries: seq<Entry<Instance>>, o: Owned)
    requires DistinctIds(entries) && DistinctNames(AllOwned(entries)) && o in AllOwned(entries)
    ensures o.v in EnvironmentOf(entries, o.id)
    ensures DistinctNames(OwnedBy(o.id, EnvironmentOf(entries, o.id)))
    decreases |entries|
  {
    var last := |entries| - 1;
    var front, e := entries[..last], entries[last];
    var before, own := AllOwned(front), OwnedBy(e.id, e.item.Env());
    DistinctParts(before, own);
    if o in before {
      EnvironmentFound(front, o);
      EnvironmentBefore(front, e, o.id);
      assert entries == front + [e];
    } else {
      assert o in own;
      EnvironmentLast(front, e);
      assert entries == front + [e];
      var i :| 0 <= i < |own| && own[i] == o;
      assert e.item.Env()[i] == o.v;
    }
  }

  lemma DistinctParts(a: seq<Owned>, b: seq<Owned>)
    requires DistinctNames(a + b)
    ensures DistinctNames(a) && DistinctNames(b)
  {
    var c := a + b;
    forall i, j | 0 <= i < j < |a| ensures a[i].id != a[j].id || a[i].v.name != a[j].v.name {
      assert c[i] == a[i] && c[j] == a[j];
    }
    forall i, j | 0 <= i < j < |b| ensures b[i].id != b[j].id || b[i].v.name != b[j].v.name {
      assert c[|a| + i] == b[i] && c[|a| + j] == b[j];
    }
  }

  lemma {:induction false} EnvironmentBefore(front: seq<Entry<Instance>>, e: Entry<Instance>, id: string)
    requires EnvironmentOf(front, id) != []
    ensures EnvironmentOf(front + [e], id) == EnvironmentOf(front, id)
  {
    if front[0].id != id {
      assert (front + [e])[1..] == front[1..] + [e];
      EnvironmentBefore(front[1..], e, id);
    }
  }

  lemma {:induction false} EnvironmentLast(front: seq<Entry<Instance>>, e: Entry<Instance>)
    requires forall i :: 0 <= i < |front| ==> front[i].id != e.id
    ensures EnvironmentOf(front + [e], e.id) == e.item.Env()
  {
    if front != [] {
      assert (front + [e])[1..] == front[1..] + [e];
      EnvironmentLast(front[1..], e);
    }
  }

  /** What an update that sends the marker for `o` finds: the variable itself. */
  lemma FindsItself(s: Settings, o: Owned)
    requires WellFormed(s) && DistinctNames(AllOwned(s.instances)) && o in AllOwned(s.instances)
    ensures FindLast(EnvironmentOf(s.instances, o.id), o.v.name) == Some(o.v)
  {
    EnvironmentFound(s.instances, o);
    var env := EnvironmentOf(s.instances, o.id);
    var i :| 0 <= i < |env| && env[i] == o.v;
    FindLastUnique(o.id, env, i);
  }

  /** A variable as the client is shown it and sends it back. */
  function Shown(store: Secrets, o: Owned): Owned {
    Owned(o.id, RedactedVariable(MaterialisedVariable(store, o)))
  }

  lemma EchoOwned(s: Settings, store: Secrets, k: nat)
    requires k < |AllOwned(s.instances)|
    ensures |AllOwned(Echo(s, store).instances)| == |AllOwned(s.instances)|
    ensures |AllOwned(Materialised(store, s).instances)| == |AllOwned(s.instances)|
    ensures AllOwned(Materialised(store, s).instances)[k]
            == Owned(AllOwned(s.instances)[k].id, MaterialisedVariable(store, AllOwned(s.instances)[k]))
    ensures AllOwned(Echo(s, store).instances)[k] == Shown(store, AllOwned(s.instances)[k])
  {
    OwnedOfMapped(Materialiser(store), s.instances);
    OwnedOfMapped(Redacter(), Materialised(store, s).instances);
  }

  lemma EchoIds(s: Settings, store: Secrets)
    requires WellFormed(s)
    ensures WellFormed(Echo(s, store))
  {
    var echo := Echo(s, store);
    assert |echo.instances| == |s.instances|;
    assert forall i :: 0 <= i < |s.instances| ==> echo.instances[i].id == s.instances[i].id;
    AssignedDistinct(s.sources);
    forall i | 0 <= i < |echo.sources| ensures echo.sources[i].id == Assigned(s.sources)[i].id {
      EchoedSource(s, store, i);
    }
  }

  /** A plain variable, or an empty one without the marker: sent back, it clears its name's secret. */
  predicate Lapses(v: Variable) {
    !v.sensitive || (!v.Marked() && v.value == "")
  }

  predicate SomeLapses(os: seq<Owned>, o: Owned) {
    exists p :: p in os && Same(o, p) && Lapses(p.v)
  }

  /** The text the settings hold inline in the last entry of the variable's name. */
  function Held(s: Settings, o: Owned): Option<string> {
    Inline(FindLast(EnvironmentOf(s.instances, o.id), o.v.name))
  }

  /** Every variable that does not lapse is sent back with the marker. */
  lemma ShownAsks(s: Settings, store: Secrets, o: Owned)
    ensures var p := Shown(store, o);
            && Same(o, p) && p.v.sensitive == o.v.sensitive
            && (Clears(s.instances, p) <==> Lapses(o.v))
            && (Puts(s.instances, p) <==> !Lapses(o.v) && Held(s, o).Some?)
            && (!Lapses(o.v) ==> Supplied(s.instances, p) == Held(s, o))
  {
  }

  lemma EchoMembers(s: Settings, store: Secrets, p: Owned)
    ensures p in AllOwned(Echo(s, store).instances) <==> exists o :: o in AllOwned(s.instances) && p == Shown(store, o)
  {
    var os, es := AllOwned(s.instances), AllOwned(Echo(s, store).instances);
    OwnedOfMapped(Materialiser(store), s.instances);
    OwnedOfMapped(Redacter(), Materialised(store, s).instances);
    forall k: nat | k < |os| ensures es[k] == Shown(store, os[k]) {
      EchoOwned(s, store, k);
    }
    if p in es {
      var k :| 0 <= k < |es| && es[k] == p;
      assert os[k] in os;
    }
    if o :| o in os && p == Shown(store, o) {
      var k :| 0 <= k < |os| && os[k] == o;
      assert es[k] == p;
    }
  }

  lemma EchoClears(s: Settings, store: Secrets, o: Owned)
    ensures SomeClears(s.instances, AllOwned(Echo(s, store).instances), Shown(store, o))
            <==> SomeLapses(AllOwned(s.instances), o)
  {
    var os, es := AllOwned(s.instances), AllOwned(Echo(s, store).instances);
    ShownAsks(s, store, o);
    if p :| p in es && Same(Shown(store, o), p) && Clears(s.instances, p) {
      EchoMembers(s, store, p);
      var q :| q in os && p == Shown(store, q);
      ShownAsks(s, store, q);
      assert Same(o, q);
    }
    if q :| q in os && Same(o, q) && Lapses(q.v) {
      EchoMembers(s, store, Shown(store, q));
      ShownAsks(s, store, q);
      assert Same(Shown(store, o), Shown(store, q));
    }
  }

  /** When all entries of a name that supply a text supply the same one, it is the last. */
  lemma {:induction false} LastPutUniform(cur: seq<Entry<Instance>>, os: seq<Owned>, o: Owned, held: Option<string>)
    requires forall p :: p in os && Same(o, p) && Puts(cur, p) ==> Supplied(cur, p) == held
    ensures LastPut(cur, os, o)
            == if exists p :: p in os && Same(o, p) && Puts(cur, p) then Holds(held.GetOr("")) else Untouched
  {
    if os != [] {
      var front, last := os[..|os| - 1], os[|os| - 1];
      assert os == front + [last];
      LastPutUniform(cur, front, o, held);
    }
  }

  lemma EchoPuts(s: Settings, store: Secrets, o: Owned)
    requires o in AllOwned(s.instances) && !Lapses(o.v)
    ensures LastPut(s.instances, AllOwned(Echo(s, store).instances), Shown(store, o))
            == if Held(s, o).Some? then Holds(Held(s, o).value) else Untouched
  {
    var es, shown := AllOwned(Echo(s, store).instances), Shown(store, o);
    ShownAsks(s, store, o);
    forall p | p in es && Same(shown, p) && Puts(s.instances, p)
      ensures Held(s, o).Some? && Supplied(s.instances, p) == Held(s, o)
    {
      EchoMembers(s, store, p);
      var q :| q in AllOwned(s.instances) && p == Shown(store, q);
      ShownAsks(s, store, q);
    }
    LastPutUniform(s.instances, es, shown, Held(s, o));
    EchoMembers(s, store, shown);
  }

  /**
   * What an echoed variable reads afterwards: what it was if it lapses; nothing if another
   * entry of its name does; else the text its name holds inline, if it does, or in the store.
   */
  function EchoText(s: Settings, store: Secrets, o: Owned): string {
    if Lapses(o.v) then o.v.value
    else if SomeLapses(AllOwned(s.instances), o) then ""
    else match Held(s, o)
      case Some(text) => Decoded(text)
      case None => ReadSecret(store, o.Secret())
  }

  lemma EchoOutcome(s: Settings, store: Secrets, o: Owned)
    requires o in AllOwned(s.instances) && !Lapses(o.v)
    ensures TextOf(Outcome(s, Echo(s, store), store, Shown(store, o))) == EchoText(s, store, o)
  {
    EchoClears(s, store, o);
    EchoPuts(s, store, o);
    ShownAsks(s, store, o);
  }

  predicate EchoKeepsVariable(s: Settings, store: Secrets, k: nat) {
    var before := AllOwned(Materialised(store, s).instances);
    var after := AllOwned(RoundTripped(s, Echo(s, store), store).instances);
    k < |before| == |after| && Same(after[k], before[k]) && after[k].v.value == before[k].v.value
  }

  predicate EchoKeepsSource(s: Settings, store: Secrets, i: nat) {
    var before, after := Materialised(store, s).sources, RoundTripped(s, Echo(s, store), store).sources;
    i < |before| == |after| && after[i].item.managementKey == before[i].item.managementKey
  }

  lemma {:induction false} EchoReads(s: Settings, store: Secrets, k: nat)
    requires WellFormed(s) && k < |AllOwned(s.instances)|
    ensures |AllOwned(RoundTripped(s, Echo(s, store), store).instances)| == |AllOwned(s.instances)|
    ensures var o := AllOwned(s.instances)[k];
            var r := AllOwned(RoundTripped(s, Echo(s, store), store).instances)[k];
            Same(o, r) && r.v.value == EchoText(s, store, o)
  {
    var o := AllOwned(s.instances)[k];
    EchoIds(s, store);
    EchoOwned(s, store, k);
    ReadBack(s, Echo(s, store), store, k);
    ShownAsks(s, store, o);
    if !Lapses(o.v) {
      EchoOutcome(s, store, o);
    }
  }

  lemma {:induction false} EchoVariable(s: Settings, store: Secrets, k: nat)
    requires WellFormed(s) && k < |AllOwned(s.instances)|
    ensures var o := AllOwned(s.instances)[k];
            EchoKeepsVariable(s, store, k) <==> EchoText(s, store, o) == MaterialisedVariable(store, o).value
  {
    EchoOwned(s, store, k);
    EchoReads(s, store, k);
  }

  /** With distinct names only a leading byte order mark of an inline text is lost. */
  lemma {:induction false} EchoWithDistinctNames(s: Settings, store: Secrets, k: nat)
    requires WellFormed(s) && DistinctNames(AllOwned(s.instances))
    requires k < |AllOwned(s.instances)|
    ensures var v := AllOwned(s.instances)[k].v;
            EchoKeepsVariable(s, store, k) <==> !(InlineVariable(v) && v.value[0] == BOM)
  {
    var os := AllOwned(s.instances);
    EchoVariable(s, store, k);
    FindsItself(s, os[k]);
    if SomeLapses(os, os[k]) {
      var p :| p in os && Same(os[k], p) && Lapses(p.v);
      var j :| 0 <= j < |os| && os[j] == p;
      assert j == k;
    }
    DecodedExactly(os[k].v.value);
  }

  lemma {:induction false} EchoSource(s: Settings, store: Secrets, i: nat)
    requires WellFormed(s) && i < |Assigned(s.sources)|
    ensures var e := Assigned(s.sources)[i];
            EchoKeepsSource(s, store, i)
            <==> (SourcePuts(e) ==> ReadSecret(store, SourceName(e.id)) == e.item.managementKey)
  {
    EchoIds(s, store);
    EchoStoresAll(s, store);
    EchoedSource(s, store, i);
    SourceRoundTrip(s, Echo(s, store), store, i);
    EchoedKey(store, Assigned(s.sources)[i]);
  }

  lemma EchoedSource(s: Settings, store: Secrets, i: nat)
    requires i < |Assigned(s.sources)|
    ensures |Echo(s, store).sources| == |Materialised(store, s).sources| == |Assigned(s.sources)|
    ensures Materialised(store, s).sources[i] == MaterialisedSource(store, Assigned(s.sources)[i])
    ensures Echo(s, store).sources[i] == RedactedSource(MaterialisedSource(store, Assigned(s.sources)[i]))
  {
  }

  lemma EchoStoresAll(s: Settings, store: Secrets)
    ensures Assigned(Echo(s, store).sources) == Echo(s, store).sources
  {
    var es := Echo(s, store).sources;
    forall e | e in es ensures e.id != PROTO {
      var i :| 0 <= i < |es| && es[i] == e;
      EchoedSource(s, store, i);
      AssignedMembers(s.sources, Assigned(s.sources)[i]);
    }
    AssignedKeepsAll(es);
  }

  /** What an echo makes of one key: how it is shown, and what is sent back for it. */
  lemma EchoedKey(store: Secrets, e: Entry<Source>)
    ensures var shown := MaterialisedSource(store, e);
            var back := RedactedSource(shown);
            && shown.id == back.id == e.id
            && shown.item.managementKey
               == (if e.item.managementKey == KEY_REDACTED then ReadSecret(store, SourceName(e.id))
                   else e.item.managementKey)
            && back.item.managementKey == if shown.item.managementKey == "" then "" else KEY_REDACTED
  {
  }

  /**
   * A client that sends back exactly what it was shown: a variable materialises to the same
   * text before and after exactly when the echo reads that text for it, and a key does unless
   * the settings held it inline and the store holds another text.
   */
  lemma EchoExactly(s: Settings, store: Secrets)
    requires WellFormed(s)
    ensures forall k: nat :: k < |AllOwned(s.instances)| ==>
              var o := AllOwned(s.instances)[k];
              EchoKeepsVariable(s, store, k) <==> EchoText(s, store, o) == MaterialisedVariable(store, o).value
    ensures forall i: nat :: i < |Assigned(s.sources)| ==>
              var e := Assigned(s.sources)[i];
              EchoKeepsSource(s, store, i)
              <==> (SourcePuts(e) ==> ReadSecret(store, SourceName(e.id)) == e.item.managementKey)
  {
    forall k: nat | k < |AllOwned(s.instances)|
      ensures var o := AllOwned(s.instances)[k];
              EchoKeepsVariable(s, store, k) <==> EchoText(s, store, o) == MaterialisedVariable(store, o).value
    {
      EchoVariable(s, store, k);
    }
    forall i: nat | i < |Assigned(s.sources)|
      ensures var e := Assigned(s.sources)[i];
              EchoKeepsSource(s, store, i)
              <==> (SourcePuts(e) ==> ReadSecret(store, SourceName(e.id)) == e.item.managementKey)
    {
      EchoSource(s, store, i);
    }
  }

  /** Of two inline texts of one name the first is lost: the echo stores the second for both. */
  lemma EchoLosesInlineVariable(store: Secrets)
    ensures var s := Twice(Variable("KEY", "a", true, None), Variable("KEY", "b", true, None));
            && WellFormed(s) && |AllOwned(s.instances)| == 2
            && |AllOwned(RoundTripped(s, Echo(s, store), store).instances)| == 2
            && AllOwned(RoundTripped(s, Echo(s, store), store).instances)[0].v.value == "b"
            && !EchoKeepsVariable(s, store, 0)
  {
    var v, w := Variable("KEY", "a", true, None), Variable("KEY", "b", true, None);
    var s := Twice(v, w);
    TwiceOwned(v, w);
    EchoReads(s, store, 0);
    EchoVariable(s, store, 0);
    assert EnvironmentOf(s.instances, "a") == [v, w];
    assert Held(s, Owned("a", v)) == Some("b");
  }

  /** An inline key is lost when its client echoes the placeholder: nothing had been stored for it. */
  lemma EchoLosesInlineKey()
    ensures var s := Settings([], [Entry("s", Source("key", ""))], "");
            && WellFormed(s) && !EchoKeepsSource(s, map[], 0)
            && RoundTripped(s, Echo(s, map[]), map[]).sources[0].item.managementKey == ""
  {
    var s := Settings([], [Entry("s", Source("key", ""))], "");
    AssignedKeepsAll(s.sources);
    EchoSource(s, map[], 0);
    EchoIds(s, map[]);
    EchoStoresAll(s, map[]);
    SourceRoundTrip(s, Echo(s, map[]), map[], 0);
  }
}
