/**
 * How the settings service splits secrets out of the settings it persists, and puts them
 * back for its readers. A sensitive variable is stored as an empty value with a marker; a
 * usage-limit key is stored as a fixed placeholder. A client that sends the marker or the
 * placeholder back means "keep what you have".
 */
module SettingsSecrets {
  import opened Options
  import opened JsValues
  import opened SecretNames

  // ---------------------------------------------------------------- data model

  datatype Variable = Variable(name: string, value: string, sensitive: bool, redacted: Option<bool>) {
    predicate Marked() { redacted == Some(true) }
  }

  /** `configEnabled` is the legacy flag inside the driver's config blob, when it is a boolean. */
  datatype Instance = Instance(
    environment: Option<seq<Variable>>, enabled: Option<bool>, configEnabled: Option<bool>, rest: string)
  {
    function Env(): seq<Variable> { environment.GetOr([]) }
  }

  datatype Source = Source(managementKey: string, rest: string)

  /** Records keep their insertion order, which is the order secrets are written in. */
  datatype Entry<+T> = Entry(id: string, item: T)

  datatype Settings = Settings(instances: seq<Entry<Instance>>, sources: seq<Entry<Source>>, rest: string)

  const KEY_REDACTED := "\U{2022}\U{2022}\U{2022}\U{2022}\U{2022}\U{2022}"

  predicate DistinctIds<T>(entries: seq<Entry<T>>) {
    forall i, j :: 0 <= i < j < |entries| ==> entries[i].id != entries[j].id
  }

  /** What the schema guarantees: record keys are unique and instance ids are slugs. */
  predicate WellFormed(s: Settings) {
    && DistinctIds(s.instances)
    && DistinctIds(s.sources)
    && forall i :: 0 <= i < |s.instances| ==> Slug(s.instances[i].id)
  }

  /** A variable together with the instance it belongs to. */
  datatype Owned = Owned(id: string, v: Variable) {
    function Secret(): string { EnvName(id, v.name) }
  }

  function OwnedBy(id: string, env: seq<Variable>): (os: seq<Owned>) {
    seq(|env|, i requires 0 <= i < |env| => Owned(id, env[i]))
  }

  function AllOwned(entries: seq<Entry<Instance>>): seq<Owned> {
    if entries == [] then []
    else
      var last := |entries| - 1;
      AllOwned(entries[..last]) + OwnedBy(entries[last].id, entries[last].item.Env())
  }

  predicate SlugOwners(os: seq<Owned>) {
    forall k :: 0 <= k < |os| ==> Slug(os[k].id)
  }

  /** No instance lists the same variable name twice. */
  predicate DistinctNames(os: seq<Owned>) {
    forall i, j :: 0 <= i < j < |os| ==> os[i].id != os[j].id || os[i].v.name != os[j].v.name
  }

  lemma {:induction false} OwnersAreSlugs(entries: seq<Entry<Instance>>)
    requires forall i :: 0 <= i < |entries| ==> Slug(entries[i].id)
    ensures SlugOwners(AllOwned(entries))
  {
    if entries != [] {
      OwnersAreSlugs(entries[..|entries| - 1]);
    }
  }

  /** The instances with every environment variable replaced by what `f` makes of it. */
  function MapEnv(f: Owned -> Variable, id: string, env: seq<Variable>): (r: seq<Variable>) {
    seq(|env|, i requires 0 <= i < |env| => f(Owned(id, env[i])))
  }

  function MapEntry(f: Owned -> Variable, e: Entry<Instance>): Entry<Instance> {
    if e.item.environment.None? then e
    else e.(item := e.item.(environment := Some(MapEnv(f, e.id, e.item.Env()))))
  }

  function MapInstances(f: Owned -> Variable, entries: seq<Entry<Instance>>): (r: seq<Entry<Instance>>) {
    seq(|entries|, i requires 0 <= i < |entries| => MapEntry(f, entries[i]))
  }

  function MapOwned(f: Owned -> Variable, os: seq<Owned>): (r: seq<Owned>)
    ensures |r| == |os| && forall k :: 0 <= k < |os| ==> r[k] == Owned(os[k].id, f(os[k]))
  {
    seq(|os|, k requires 0 <= k < |os| => Owned(os[k].id, f(os[k])))
  }

  lemma {:induction false} OwnedOfMapped(f: Owned -> Variable, entries: seq<Entry<Instance>>)
    ensures AllOwned(MapInstances(f, entries)) == MapOwned(f, AllOwned(entries))
  {
    if entries != [] {
      var last := |entries| - 1;
      OwnedOfMapped(f, entries[..last]);
      assert MapInstances(f, entries)[..last] == MapInstances(f, entries[..last]);
      var e := entries[last];
      assert OwnedBy(e.id, MapEntry(f, e).item.Env()) == MapOwned(f, OwnedBy(e.id, e.item.Env()));
    }
  }

  // ---------------------------------------------------------------- persisting

  datatype Change = Write(name: string, text: string) | Remove(name: string)

  function FindLast(env: seq<Variable>, name: string): Option<Variable> {
    if env == [] then None
    else
      var last := |env| - 1;
      if env[last].name == name then Some(env[last]) else FindLast(env[..last], name)
  }

  function EnvironmentOf(entries: seq<Entry<Instance>>, id: string): seq<Variable> {
    if entries == [] then []
    else if entries[0].id == id then entries[0].item.Env()
    else EnvironmentOf(entries[1..], id)
  }

  /** A sensitive value still held in the settings themselves, not yet in the secret store. */
  function Inline(previous: Option<Variable>): Option<string> {
    if previous.Some? && previous.value.sensitive && !previous.value.Marked() && |previous.value.value| > 0
    then Some(previous.value.value) else None
  }

  /** The text an update supplies for a sensitive variable; `None` means keep the stored one. */
  function Supplied(current: seq<Entry<Instance>>, o: Owned): Option<string> {
    if o.v.Marked() then Inline(FindLast(EnvironmentOf(current, o.id), o.v.name)) else Some(o.v.value)
  }

  predicate Puts(current: seq<Entry<Instance>>, o: Owned) {
    o.v.sensitive && Supplied(current, o).Some? && Supplied(current, o).value != ""
  }

  predicate Clears(current: seq<Entry<Instance>>, o: Owned) {
    !o.v.sensitive || Supplied(current, o) == Some("")
  }

  function RedactedVariable(v: Variable): Variable {
    if !v.sensitive then v.(redacted := None)
    else v.(value := "", redacted := if |v.value| > 0 || v.Marked() then Some(true) else v.redacted)
  }

  function PersistedVariable(current: seq<Entry<Instance>>, o: Owned): Variable {
    if o.v.sensitive && Puts(current, o) then o.v.(value := "", redacted := Some(true))
    else if o.v.sensitive && Clears(current, o) then o.v.(redacted := None)
    else RedactedVariable(o.v)
  }

  function Persister(current: seq<Entry<Instance>>): Owned -> Variable {
    (o: Owned) => PersistedVariable(current, o)
  }

  function PersistedSource(e: Entry<Source>): Entry<Source> {
    if e.item.managementKey == "" then e else e.(item := e.item.(managementKey := KEY_REDACTED))
  }

  function PersistedSources(entries: seq<Entry<Source>>): (r: seq<Entry<Source>>) {
    seq(|entries|, i requires 0 <= i < |entries| => PersistedSource(entries[i]))
  }

  /** Storing an entry in a fresh record: under the prototype's name nothing is stored. */
  function Assign(record: seq<Entry<Source>>, e: Entry<Source>): seq<Entry<Source>> {
    if e.id == PROTO then record else record + [e]
  }

  /** The record that results from storing the entries one after the other. */
  function Assigned(entries: seq<Entry<Source>>): seq<Entry<Source>> {
    if entries == [] then []
    else Assign(Assigned(entries[..|entries| - 1]), entries[|entries| - 1])
  }

  function Persisted(current: Settings, next: Settings): Settings {
    next.(instances := MapInstances(Persister(current.instances), next.instances),
          sources := PersistedSources(Assigned(next.sources)))
  }

  function EnvWrites(current: seq<Entry<Instance>>, os: seq<Owned>): seq<Change> {
    if os == [] then []
    else
      var o := os[|os| - 1];
      EnvWrites(current, os[..|os| - 1])
      + if Puts(current, o) then [Write(o.Secret(), Supplied(current, o).value)] else []
  }

  function EnvRemovals(current: seq<Entry<Instance>>, os: seq<Owned>): seq<Change> {
    if os == [] then []
    else
      var o := os[|os| - 1];
      EnvRemovals(current, os[..|os| - 1]) + if Clears(current, o) then [Remove(o.Secret())] else []
  }

  function SensitiveNames(os: seq<Owned>): set<string> {
    if os == [] then {}
    else
      var o := os[|os| - 1];
      SensitiveNames(os[..|os| - 1]) + if o.v.sensitive then {o.Secret()} else {}
  }

  function StaleRemovals(kept: set<string>, os: seq<Owned>): seq<Change> {
    if os == [] then []
    else
      var o := os[|os| - 1];
      StaleRemovals(kept, os[..|os| - 1])
      + if o.v.sensitive && o.Secret() !in kept then [Remove(o.Secret())] else []
  }

  function SourceWrites(entries: seq<Entry<Source>>): seq<Change> {
    if entries == [] then []
    else
      var e := entries[|entries| - 1];
      SourceWrites(entries[..|entries| - 1])
      + if e.item.managementKey != "" && e.item.managementKey != KEY_REDACTED
        then [Write(SourceName(e.id), e.item.managementKey)] else []
  }

  function SourceRemovals(entries: seq<Entry<Source>>): seq<Change> {
    if entries == [] then []
    else
      var e := entries[|entries| - 1];
      SourceRemovals(entries[..|entries| - 1])
      + if e.item.managementKey == "" then [Remove(SourceName(e.id))] else []
  }

  predicate HasId<T>(entries: seq<Entry<T>>, id: string) {
    exists i :: 0 <= i < |entries| && entries[i].id == id
  }

  /** The answer of `in`, which also finds the names an object inherits. */
  predicate Finds(entries: seq<Entry<Source>>, id: string) {
    HasId(entries, id) || id in INHERITED
  }

  function StaleSources(next: seq<Entry<Source>>, entries: seq<Entry<Source>>): seq<Change> {
    if entries == [] then []
    else
      var e := entries[|entries| - 1];
      StaleSources(next, entries[..|entries| - 1])
      + if Finds(next, e.id) then [] else [Remove(SourceName(e.id))]
  }

  function Writes(current: Settings, next: Settings): seq<Change> {
    EnvWrites(current.instances, AllOwned(next.instances)) + SourceWrites(next.sources)
  }

  function Removals(current: Settings, next: Settings): seq<Change> {
    EnvRemovals(current.instances, AllOwned(next.instances))
    + StaleRemovals(SensitiveNames(AllOwned(next.instances)), AllOwned(current.instances))
    + SourceRemovals(next.sources)
    + StaleSources(next.sources, current.sources)
  }

  /** The whole change list: every write before every removal. */
  function Changes(current: Settings, next: Settings): seq<Change> {
    Writes(current, next) + Removals(current, next)
  }

  // ---------------------------------------------------------------- the store

  type Secrets = map<string, string>

  function ApplyChange(store: Secrets, c: Change): Secrets {
    match c
    case Write(n, t) => store[n := t]
    case Remove(n) => store - {n}
  }

  function Applied(store: Secrets, changes: seq<Change>): Secrets {
    if changes == [] then store
    else ApplyChange(Applied(store, changes[..|changes| - 1]), changes[|changes| - 1])
  }

  // ---------------------------------------------------------------- materialising

  const BOM: char := '\U{FEFF}'

  /** Reading a stored text back: the text decoder drops one leading byte order mark. */
  function Decoded(text: string): string {
    if |text| > 0 && text[0] == BOM then text[1..] else text
  }

  function ReadSecret(store: Secrets, name: string): string {
    match Lookup(store, name)
    case Some(t) => Decoded(t)
    case None => ""
  }

  function MaterialisedVariable(store: Secrets, o: Owned): Variable {
    if o.v.sensitive && o.v.Marked() then o.v.(value := ReadSecret(store, o.Secret())) else o.v
  }

  function Materialiser(store: Secrets): Owned -> Variable {
    (o: Owned) => MaterialisedVariable(store, o)
  }

  function MaterialisedSource(store: Secrets, e: Entry<Source>): Entry<Source> {
    if e.item.managementKey != KEY_REDACTED then e
    else e.(item := e.item.(managementKey := ReadSecret(store, SourceName(e.id))))
  }

  function MaterialisedSources(store: Secrets, entries: seq<Entry<Source>>): (r: seq<Entry<Source>>) {
    seq(|entries|, i requires 0 <= i < |entries| => MaterialisedSource(store, entries[i]))
  }

  function Materialised(store: Secrets, s: Settings): Settings {
    s.(instances := MapInstances(Materialiser(store), s.instances),
       sources := MaterialisedSources(store, Assigned(s.sources)))
  }

  // ---------------------------------------------------------------- what clients see

  function Redacter(): Owned -> Variable {
    (o: Owned) => RedactedVariable(o.v)
  }

  function RedactedSource(e: Entry<Source>): Entry<Source> {
    e.(item := e.item.(managementKey := if |e.item.managementKey| > 0 then KEY_REDACTED else ""))
  }

  function RedactedForClient(s: Settings): Settings {
    s.(instances := MapInstances(Redacter(), s.instances),
       sources := seq(|s.sources|, i requires 0 <= i < |s.sources| => RedactedSource(s.sources[i])))
  }

  // ---------------------------------------------------------------- the legacy enabled flag

  function FoldedInstance(i: Instance): Instance {
    match i.configEnabled
    case None => i
    case Some(flag) =>
      i.(enabled := if i.enabled == Some(false) || !flag then Some(false) else Some(i.enabled.GetOr(flag)),
         configEnabled := None)
  }

  function Folded(s: Settings): Settings {
    s.(instances := seq(|s.instances|, i requires 0 <= i < |s.instances| =>
      s.instances[i].(item := FoldedInstance(s.instances[i].item))))
  }

  /** An instance runs unless a flag says otherwise; a disable on either side is decisive. */
  predicate Disabled(i: Instance) {
    i.enabled == Some(false) || i.configEnabled == Some(false)
  }

  /**
   * Folding keeps exactly the disables, moves the flag out of the blob and is idempotent;
   * it touches no environment, so it commutes with everything above.
   */
  lemma FoldKeepsDisables(i: Instance)
    ensures Disabled(FoldedInstance(i)) <==> Disabled(i)
    ensures FoldedInstance(i).configEnabled.None?
    ensures FoldedInstance(FoldedInstance(i)) == FoldedInstance(i)
    ensures FoldedInstance(i).enabled.None? <==> i.enabled.None? && i.configEnabled.None?
    ensures FoldedInstance(i).environment == i.environment && FoldedInstance(i).rest == i.rest
  {
  }

  lemma {:induction false} FoldKeepsOwned(s: Settings)
    ensures AllOwned(Folded(s).instances) == AllOwned(s.instances)
    decreases |s.instances|
  {
    if s.instances != [] {
      var last := |s.instances| - 1;
      var shorter := s.(instances := s.instances[..last]);
      FoldKeepsOwned(shorter);
      assert Folded(s).instances[..last] == Folded(shorter).instances;
    }
  }
}
