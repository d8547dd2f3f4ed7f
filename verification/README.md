# Agent host: settings, protocols and codecs

This project models the host side of an agent control surface and proves properties of it.
The modules follow the program's own parts:

- **Settings and secrets** (`SecretNames`, `SecretEncodings`, `SettingsSecrets`, `SettingsTheorems`,
  `SettingsTransaction`, `SettingsService`, `SparseSettings`). A settings update splits secret
  texts out of the settings, applies writes and then removals to a secret store while recording
  what it overwrote, reads the new settings back, writes a sparse file and refreshes a cache; any
  failure in between undoes the recorded changes in reverse order.
- **Protocols** (`ThemePublishing`, `CommandGate`, `ServiceLauncher`, `ConfirmDialog`). Each is a
  state machine over its atomic steps, and the theorems hold after every interleaving; `ThemeFiles`
  says what one reading of the theme directory publishes.
- **The replay agent** (`ReplayMatching`, `ReplayMachine`): a transcript player with request
  tables and a wildcard matcher.
- **The composer** (`ComposerSegments`, `ComposerCursor`): prompts cut into text and inline
  tokens, and the two cursor maps over the result.
- **Keybindings** (`KeyShortcuts`, `WhenExpressions`, `KeybindingStore`): the parsers and encoders
  of shortcuts and conditions, and the persisted rule list.
- **Files and names** (`IconFile`, `AttachmentIds`, `AttachmentPatterns`, `DataUrls`,
  `DataUrlGrammar`, `FaviconStorage`, `LicenseTraversal`): the icon writer, attachment ids and the
  sweep of stale uploads, base64 data URLs, a write-through storage wrapper, and the walk over
  production dependencies.

`Options`, `Texts` and `JsValues` hold the library functions the others share.

Code that changes things step by step is a class or a method with a loop (the settings service and
its secret store, the rule store, the replay agent, the launcher, the dialog, the license
collector, the icon writer, the sweep, the cursor loops); each method is proved against a function
of its inputs or of the old state, and the theorems are about that function. Concurrent protocols
are transition systems whose steps are the points at which the program can be interleaved.

## What the environment decides

Failures are inputs. Every secret-store call has an outcome from a `Plan`: done, refused, or torn.
A torn write is one that reports failure after it took effect: storing a secret renames the new
file into place and then changes its mode, so a failing mode change leaves the new text behind.
Writes of the settings file have the same three outcomes. Times of files, the choice of identifiers,
whether the browser's storage throws, and the order of protocol steps are parameters as well.

## Where the code promises less than one might expect

Each of these is a lemma with a concrete input or family; where the promise can be kept, the exact
condition for it is proved beside it.

- A failed settings update restores the secret store, when its undos work, exactly when no write
  was torn at a name it had not changed before (`FailedUpdate`, `TornWriteStays`). A failed undo can
  leave a secret the settings do not mention, but only where the change it should have undone had
  stored a text (`RunOrphansExactly`, `LeftWasStored`).
- A successful update can leave such a secret too. Whether a usage-limit source was dropped is asked
  of a plain object, in which names like "constructor" and "toString" are always found, so removing
  a source of such a name keeps its key in the store; and a source named `__proto__` is lost when
  the record is put together although its key is stored (`UpdateOrphansExactly`,
  `InheritedNameLeavesKey`, `PrototypeNameIsDropped`).
- Of two entries for one variable name in an instance, an empty one erases the other's secret
  whichever comes first, for removals follow all writes, and an entry that sends the marker to keep
  its text loses it to the other's new one; a comment at apps/server/src/serverSettings.ts:860
  speaks of the last value winning, and the model follows the code (`DuplicateNamesRoundTrip`,
  `DuplicateLosesItsSecret`, `DuplicateReplacesWhatIsKept`).
- A usage-limit key that a settings file still holds inline is lost when a client echoes its
  snapshot, for the placeholder it sends keeps what the store holds, which is nothing. Inline
  variables survive where names are distinct and no text begins with a byte order mark; of two
  inline texts of one name the last is read back for both (`EchoExactly`, `EchoWithDistinctNames`,
  `EchoLosesInlineKey`, `EchoLosesInlineVariable`).
- A secret that begins with a byte order mark loses it when it is read back (`DecodedExactly`).
- Two usage-limit sources share one secret exactly when their ids differ at most in characters that
  encoding replaces, such as surrogates without a partner (`SourcesShareExactly`,
  `LoneSurrogatesShare`). Everywhere else a text is a sequence of Unicode characters.
- The sparse settings form restores only trees that cover the keys of their defaults and have no
  `__proto__` key of their own (`RoundTripNeedsCover`).
- A slow theme subscriber can receive the same set twice in a row (`SkippedSetCanRepeat`); only sets
  with consecutive numbers are sure to differ (`DeliveriesMoveForward`), and two sets received in a
  row have them exactly when none between was dropped from the slot (`ConsecutiveUnlessDropped`).
- A command enqueued after readiness can overtake a queued one: in every run a start overtakes
  exactly when it is a direct one and some queued command has neither begun nor settled
  (`OvertakesExactly`, `DirectCommandsOvertake`).
- A replay directory whose path contains a dollar sign followed by `$`, `&`, a backtick or an
  apostrophe is not what a placeholder is replaced by (`ExpandedIsJoined`, `DollarPathIsGarbled`).
- A second stop signal, or an error of the child after a stop, completes the launcher while its
  child still runs (`StopWaitsExactly`, `SecondStopDoesNotWait`).
- A condition can be accepted and still be unreadable once encoded again: each negation is given a
  parenthesis of its own, and more than 64 are refused (`ParseEncodes`, `DeepNegationIsLost`).
- Upserting a rule that does not compile caches a state without the issue that reloading reports
  (`UpsertCacheAgreesWithFile`, `RefusedRuleIsHidden`).
- A favicon stored in an earlier session is missed when reading the browser's storage throws
  (`FailedReadExactly`).

## Model

| member | source | states |
|---|---|---|
| `SecretNames.EnvNameInjective` | apps/server/src/serverSettings.ts:136-148 | Provider secret names of two slug instances coincide only for the same instance and the same variable name, whatever text the name is. |
| `SecretNames.SourceNameInjective` | apps/server/src/serverSettings.ts:150-152 | Usage-limit secret names of two source ids that are Unicode texts coincide only for equal ids. |
| `SecretNames.FamiliesDisjoint` | apps/server/src/serverSettings.ts:136-152 | No provider secret name is ever a usage-limit secret name. |
| `SecretEncodings.SourcesShareExactly` | apps/server/src/serverSettings.ts:150-152 | Over all strings, well-formed or not, two sources share a secret name if and only if their ids differ at most in units that encoding replaces. |
| `SecretEncodings.LoneSurrogatesShare` | apps/server/src/serverSettings.ts:150-152 | Two different ids of one lone surrogate each that share a secret name. |
| `SecretNames.DashExactly` | apps/server/src/serverSettings.ts:140-147 | The base64url text (section 5 of RFC 4648) of an ASCII id contains the separator if and only if `>` or `~` stands at an index congruent to 2 modulo 3. |
| `SecretNames.NamesCollideExactly` | apps/server/src/serverSettings.ts:136-148 | Two distinct ASCII ids have variable names under which they share a secret name if and only if one id is the other followed by `>` and a rest, the other and the rest being two characters longer than a multiple of three; slug ids never are. |
| `SecretNames.NonSlugNamesCollide` | apps/server/src/serverSettings.ts:136-148 | An instance of that condition, with ids the schema refuses. |
| `SecretNames.Base64UrlInjective` | apps/server/src/serverSettings.ts:140-151 | Different byte strings have different base64url texts. |
| `SecretEncodings.DigitExactly` | apps/server/src/serverSettings.ts:140-151 | The digits are those of the URL-safe alphabet of section 5 of RFC 4648, in its order. |
| `SecretNames.Utf8Injective` | apps/server/src/serverSettings.ts:140-151 | Different texts have different UTF-8 bytes, because no character's bytes start another's. |
| `SecretEncodings.Utf8Exactly` | apps/server/src/serverSettings.ts:140-151 | Each character is encoded in the shortest form section 3 of RFC 3629 has for its code, and the code reads back from it. |
| `SettingsTheorems.FinalSecret` | apps/server/src/serverSettings.ts:804-1039 | After the change list the store holds for each sensitive variable: nothing if any entry of its name clears it, else the last supplied text, else what it held. |
| `SettingsTheorems.ReadBack` | apps/server/src/serverSettings.ts:723-947 | For any settings whatever, what each variable reads back as after a persisted update: plain ones keep their value, cleared ones are empty, the rest read the store's final text. |
| `SettingsTheorems.DistinctNamesRoundTrip` | apps/server/src/serverSettings.ts:723-947 | With distinct names per instance every variable reads back as sent, and as held before where the redaction marker was sent. |
| `SettingsTheorems.DuplicateNamesRoundTrip` | apps/server/src/serverSettings.ts:843-899 | With duplicate names any entry, whatever it sent, reads back as asked if and only if it is plain or cleared, or no entry of its name clears the secret and the last text supplied for it, if any, is the wanted one. |
| `SettingsTheorems.DuplicateLosesItsSecret` | apps/server/src/serverSettings.ts:848-916 | Two entries for one name, the second empty: the first one's text is lost although it was sent. |
| `SettingsTheorems.DuplicateReplacesWhatIsKept` | apps/server/src/serverSettings.ts:843-899 | Two entries for one name, the first sending the marker: it reads back the text of the second instead of the one it kept. |
| `SettingsTheorems.SourceRoundTrip` | apps/server/src/serverSettings.ts:767-785 | A usage-limit key reads back as sent, and the placeholder as the key held before, for every source but one named `__proto__`, which is not stored in the record. |
| `SettingsTheorems.PersistedHasNoPlaintext` | apps/server/src/serverSettings.ts:804-947 | Persisted settings hold no text of any sensitive variable and no usage-limit key. |
| `SettingsTheorems.PersistedExactly` | apps/server/src/serverSettings.ts:843-899 | What is persisted of each variable: a sensitive one has no text, and the marker if and only if the update does not clear it; a plain one keeps its value and has no marker. |
| `SettingsTheorems.UpdateOrphansExactly` | apps/server/src/serverSettings.ts:804-947 | If every managed secret in the store was mentioned by the settings before an update, every one is mentioned after it, even with duplicate names, if and only if no dropped source with an inherited name has a stored key and no key is stored or sent for a source named `__proto__` that is not cleared. |
| `SettingsTheorems.InheritedNameLeavesKey` | apps/server/src/serverSettings.ts:930-936 | Removing the only source, its name an inherited one, leaves its key in the store, mentioned by nothing. |
| `SettingsTheorems.PrototypeNameIsDropped` | apps/server/src/serverSettings.ts:915-929 | A source named `__proto__` is missing from the persisted settings although its key is stored. |
| `SettingsTheorems.ForeignSecretsUntouched` | apps/server/src/serverSettings.ts:804-1039 | No change list alters a secret outside the two managed families. |
| `SettingsTheorems.EchoExactly` | apps/server/src/serverSettings.ts:154-191 | When a client sends back exactly the redacted settings it was shown, a variable keeps its text if and only if that is what the echo reads: its own text if it is plain or empty without the marker, nothing if another entry of its name is, else the text the last entry of its name holds inline or, if none, the store's. A usage-limit key does if and only if it is not an inline one that differs from what the store holds. |
| `SettingsTheorems.EchoWithDistinctNames` | apps/server/src/serverSettings.ts:154-191 | With distinct names a variable keeps its text if and only if it is not an inline secret that begins with a byte order mark. |
| `SettingsTheorems.EchoLosesInlineVariable` | apps/server/src/serverSettings.ts:843-899 | Two inline texts of one name: after the echo the first reads as the second. |
| `SettingsTheorems.EchoLosesInlineKey` | apps/server/src/serverSettings.ts:915-929 | A settings file with an inline usage-limit key whose client echo leaves the key empty. |
| `SettingsTransaction.AttemptStore` | apps/server/src/serverSettings.ts:975-1039 | Applying changes applies a prefix of the list in order, stops at the first failing call, and records one undo for each applied change. |
| `SettingsTransaction.RollbackOutcome` | apps/server/src/serverSettings.ts:949-1039 | What any rollback leaves under any name, for every pattern of failures: the mark of exactly the changes made before the one whose undo is the first recorded to take effect, or of all that were made if none does. |
| `SettingsTransaction.RollbackRestoresName` | apps/server/src/serverSettings.ts:949-973 | Name by name and for any failures among the undos: if the decisive undo works, the name is as it was, however many changes named it, except for a stray torn write. |
| `SettingsTransaction.RollbackExactly` | apps/server/src/serverSettings.ts:949-1039 | When the undos work the whole store is restored if and only if the run did not stop at a torn write of a new text to a name not changed before. |
| `SettingsService.FailedUpdate` | apps/server/src/serverSettings.ts:1041-1075 | When its undos work, a failed update restores the whole store if and only if it did not stop at a torn write of a new text to a name not changed before. |
| `SettingsService.FailedUpdateLeaves` | apps/server/src/serverSettings.ts:1041-1075 | What a failed update leaves under any name, whatever failed, its undos included. |
| `SettingsService.FailedUpdateKeepsSettings` | apps/server/src/serverSettings.ts:1041-1075 | A failed update leaves the cache alone, and the file unless its own write was torn, whatever its undos do. |
| `SettingsService.FailedUpdateStops` | apps/server/src/serverSettings.ts:975-1070 | Where a failing update stops: its undos, one call each, begin right after the first store call that failed, or after all of them when the file could not be written; the file holds what the client asked for if all calls worked and its write was torn, and is unchanged otherwise. |
| `SettingsService.LateFailureRestores` | apps/server/src/serverSettings.ts:1055-1070 | A failure after all changes were applied, in reading back or in writing the file, restores the whole store. |
| `SettingsService.TornWriteStays` | apps/server/src/auth/ServerSecretStore.ts:188-226 | A first secret write that fails after its rename leaves the new text in the store after the failed update. |
| `SettingsService.SuccessfulUpdate` | apps/server/src/serverSettings.ts:1041-1075 | A successful update applies every change, makes file and cache equal without any secret text, and returns what reading them back gives. |
| `SettingsService.SuccessfulUpdateKeeps` | apps/server/src/serverSettings.ts:804-947 | File, cache and result of a successful update are what the client asked for apart from secret texts: all other settings, and every instance, variable and source in order, with the enabled flags of instance and driver folded into one. |
| `SettingsSecrets.FoldKeepsDisables` | apps/server/src/serverSettings.ts:79-117 | Folding the legacy flag keeps exactly the disables, from either side, and folding again changes nothing. |
| `SettingsService.UpdateSucceedsExactly` | apps/server/src/serverSettings.ts:1041-1075 | An update succeeds if and only if the request is accepted and encoded, the file is written, and none of the store calls it makes fails: two for each change and one for each secret read back. |
| `SettingsService.SuccessfulUpdateReturns` | apps/server/src/serverSettings.ts:1041-1075 | The caller gets back the value of an entry as it asked if and only if the entry prevails over the others of its name. |
| `SettingsService.SuccessfulUpdateReturnsWanted` | apps/server/src/serverSettings.ts:1041-1075 | With distinct names every entry does. |
| `SettingsService.SuccessfulUpdateReturnsKeys` | apps/server/src/serverSettings.ts:1041-1075 | The caller gets back each usage-limit key as sent, and the one held before where it sent the placeholder. |
| `SettingsService.RunKeepsSecrets` | apps/server/src/serverSettings.ts:1041-1075 | Over any run of updates, whatever fails in it: the file is the one the run began with or holds no secret text, and secrets of other services are as they were. |
| `SettingsService.RunOrphansExactly` | apps/server/src/serverSettings.ts:1041-1075 | A run never leaves a managed secret the settings do not mention if and only if each failing update leaves no such name written and each successful one releases its sources with inherited names; changes that were removals never matter, whether or not their undo works. |
| `SettingsService.WorkingUndosFailCleanly` | apps/server/src/serverSettings.ts:949-1075 | Working undos and no stray torn write are enough for that. |
| `SettingsService.Service.Rollback` | apps/server/src/serverSettings.ts:949-973 | Undoes the recorded changes from the last to the first, ignoring failing undos. |
| `SettingsService.Service.ApplyChanges` | apps/server/src/serverSettings.ts:975-1039 | The loop over the changes leaves the store as the specified attempt does, rolled back if it failed. |
| `SettingsService.Service.PersistEnv` | apps/server/src/serverSettings.ts:843-899 | The loop over one environment gives the specified variables and extends the change lists as specified. |
| `SettingsService.Service.PersistSecrets` | apps/server/src/serverSettings.ts:804-947 | The splitting loops produce the specified settings, writes and removals, in order. |
| `SettingsService.Service.RemoveStaleSecrets` | apps/server/src/serverSettings.ts:901-913 | Collects a removal for exactly the current secrets no sensitive variable of the next settings has. |
| `SettingsService.Service.PersistSources` | apps/server/src/serverSettings.ts:915-929 | The loop over usage-limit sources gives the specified sources, writes and removals; assigning under `__proto__` stores no entry. |
| `SettingsService.Service.RemoveStaleSources` | apps/server/src/serverSettings.ts:930-936 | Collects a removal for exactly the current sources the next settings drop, except those whose name every object inherits. |
| `SettingsService.Service.Materialise` | apps/server/src/serverSettings.ts:723-785 | The reading loops give back the settings with every marked text replaced, or fail at the first failing read. |
| `SettingsService.Service.MaterialiseEnv` | apps/server/src/serverSettings.ts:730-757 | Reads one environment back, stopping at the first failing read. |
| `SettingsService.Service.MaterialiseSources` | apps/server/src/serverSettings.ts:762-785 | Reads the usage-limit keys back, stopping at the first failing read. |
| `SettingsService.Service.ApplyAndWrite` | apps/server/src/serverSettings.ts:1050-1070 | The uninterruptible part leaves store and file as specified, rolled back in reverse order after any failure. |
| `SettingsService.Service.Update` | apps/server/src/serverSettings.ts:1041-1075 | Store, file, cache and result after an update are those of the specified update, for every pattern of failures. |
| `SparseSettings.StripsToNothingIffDefault` | apps/server/src/serverSettings.ts:442-474 | Stripping returns nothing if and only if the tree equals its defaults, atomic keys taken whole. |
| `SparseSettings.SparseRoundTrip` | apps/server/src/serverSettings.ts:442-474 | Filling the defaults into the stripped tree gives the original tree whenever its records cover the default keys and have no `__proto__` key of their own. |
| `SparseSettings.RoundTripNeedsCover` | apps/server/src/serverSettings.ts:442-474 | Only covering trees survive, so the condition is exact. |
| `ThemePublishing.RunKeeps` | apps/server/src/environmentTheme.ts:232-303 | The invariant over numbers, observations, the semaphore holder and every subscriber's slot holds after every interleaving. |
| `ThemePublishing.NumberCountsChanges` | apps/server/src/environmentTheme.ts:245-263 | Over every run the sequence number equals the number of times the published set changed: it grows by one exactly when a refresh finds a different set. |
| `ThemePublishing.LaterNumbersAreLaterObservations` | apps/server/src/environmentTheme.ts:234-263 | A set with a higher number was read from the directory strictly later. |
| `ThemePublishing.DeliveriesMoveForward` | apps/server/src/environmentTheme.ts:287-302 | The numbers one subscriber is given strictly increase, and so do the moments its sets were read. |
| `ThemePublishing.QuietSubscriberIsCurrent` | apps/server/src/environmentTheme.ts:232-302 | A subscriber with nothing waiting has last received exactly the published set, if and only if no refresh that changed the set has still to announce it. |
| `ThemePublishing.RefreshReadsThePresent` | apps/server/src/environmentTheme.ts:245-263 | What a refresh hands out was in the directory at some moment after that refresh took the semaphore. |
| `ThemePublishing.EverySubscriberCanCatchUp` | apps/server/src/environmentTheme.ts:232-303 | In every run, whatever refresh is under way and however far a subscriber has come, further steps lead to its having received exactly the present content of the directory. |
| `ThemePublishing.EverySubscriberCanLeave` | apps/server/src/environmentTheme.ts:286-302 | And further steps lead to its being gone, after the refresh it may be waiting for. |
| `ThemePublishing.SubscribedExactly` | apps/server/src/environmentTheme.ts:286-302 | A subscriber is registered if and only if it has come, and neither gone nor been waiting for a refresh that was interrupted since. |
| `ThemePublishing.InterruptLeavesNothing` | apps/server/src/environmentTheme.ts:245-263 | An interrupted refresh frees the semaphore and publishes and announces nothing. |
| `ThemePublishing.ConsecutiveUnlessDropped` | apps/server/src/environmentTheme.ts:287-302 | Two sets received in a row have consecutive numbers if and only if no set numbered between them was dropped from the slot for a newer one. |
| `ThemePublishing.SkippedSetCanRepeat` | apps/server/src/environmentTheme.ts:287-302 | A run in which one subscriber receives the same set twice in a row. |
| `ThemeFiles.ReadPublished` | apps/server/src/environmentTheme.ts:143-210 | The sort and the loop with its two counters publish the longest run, in name order, of the usable files among the first 32 candidates that fits the byte budget. |
| `ThemeFiles.BeforeExactly` | apps/server/src/environmentTheme.ts:152 | A name is read before another if and only if it begins the other or has the smaller character where they first differ. |
| `ThemeFiles.ListingOrderDoesNotMatter` | apps/server/src/environmentTheme.ts:143-210 | The published set depends on the directory alone, not on the order in which its entries are listed. |
| `CommandGate.RunKeeps` | apps/server/src/serverRuntimeStartup.ts:94-142 | The gate's invariant holds after every interleaving of callers, signal, failure and worker. |
| `CommandGate.NoEffectBeforeSignal` | apps/server/src/serverRuntimeStartup.ts:99-142 | No command effect, queued or direct, begins before readiness has been signalled. |
| `CommandGate.QueueIsServedInOrder` | apps/server/src/serverRuntimeStartup.ts:104-107 | Queued effects begin and settle in offer order, each at most once and never two at a time. |
| `CommandGate.SettledWithVerdict` | apps/server/src/serverRuntimeStartup.ts:94-140 | A settled command has its own effect's exit if the gate opened and the startup error if it was rejected, and its caller returns with just that. |
| `CommandGate.FailedGateRunsNothing` | apps/server/src/serverRuntimeStartup.ts:109-119 | A gate that failed and was never signalled runs no effect, and every queued command the worker finishes settles with the startup error. |
| `CommandGate.FinishedSignalsDecide` | apps/server/src/serverRuntimeStartup.ts:109-119 | In every run a gate is undecided only while every signal and every failure so far is between its two halves. |
| `CommandGate.FirstHalfDecides` | apps/server/src/serverRuntimeStartup.ts:109-119 | The gate is opened, or rejected with an error, by whichever second half of a signal or a failure is performed first. |
| `CommandGate.ReadinessIsLatest` | apps/server/src/serverRuntimeStartup.ts:109-127 | What callers read is the latest signal or failure, even one that came after the gate was decided. |
| `CommandGate.SignalsUnderWay` | apps/server/src/serverRuntimeStartup.ts:109-114 | The signals between their halves are those begun and not finished. |
| `CommandGate.FailuresUnderWay` | apps/server/src/serverRuntimeStartup.ts:115-119 | And so are the failures, for each error. |
| `CommandGate.DecisionsAreFinal` | apps/server/src/serverRuntimeStartup.ts:94-119 | However a run goes on, a decided gate and a settled result stay what they are. |
| `CommandGate.NoStall` | apps/server/src/serverRuntimeStartup.ts:104-140 | Once the gate is decided the worker always has a step while an offered command is unsettled. |
| `CommandGate.EveryCallCanReturn` | apps/server/src/serverRuntimeStartup.ts:94-140 | In every run whose gate is decided, and for every caller, wherever it stands, further steps lead to its return, whatever its command ends with. |
| `CommandGate.StartedExactly` | apps/server/src/serverRuntimeStartup.ts:104-140 | The queued commands among those started are exactly those whose effects have begun, in that order. |
| `CommandGate.OvertakesExactly` | apps/server/src/serverRuntimeStartup.ts:104-127 | In every run the start of a command overtakes a queued one that has neither begun nor settled if and only if it is a direct start and there is such a command; a start from the queue never does. |
| `CommandGate.DirectCommandsOvertake` | apps/server/src/serverRuntimeStartup.ts:120-127 | A run in which a command that arrived later starts first. |
| `ServiceLauncher.RunKeeps` | apps/server/src/serviceLauncher.ts:67-165 | The launcher's invariant holds after every interleaving of start, spawn, exit, error, stop and fatal handlers. |
| `ServiceLauncher.Continues` | apps/server/src/serviceLauncher.ts:94-165 | Stopping is never cleared, no child is recorded again after it, and the first settlement is final. |
| `ServiceLauncher.ThrowsExactly` | apps/server/src/serviceLauncher.ts:127-150 | Starting throws if and only if the entry is missing or the spawn fails, and then there is no child. |
| `ServiceLauncher.StopPreventsSpawn` | apps/server/src/serviceLauncher.ts:127-134 | A stop that comes before the spawn keeps the child from ever being started. |
| `ServiceLauncher.SpawnIsRecordedExactly` | apps/server/src/serviceLauncher.ts:134-157 | An entry that is there is spawned, and the spawned child recorded, if and only if nothing has stopped the launcher; otherwise the spawned child is told to end. |
| `ServiceLauncher.TellsExactly` | apps/server/src/serviceLauncher.ts:94-157 | A live child is told to end by exactly these: a stop or an error that finds it recorded, and the end of a spawn that a stop overlapped. |
| `ServiceLauncher.StoppedChildIsTold` | apps/server/src/serviceLauncher.ts:127-157 | A child whose spawn overlapped a stop is told to terminate. |
| `ServiceLauncher.ExitIsFatalExactly` | apps/server/src/serviceLauncher.ts:157-164 | A child's exit becomes a fatal error if and only if no stop or failure came first. |
| `ServiceLauncher.FailsOnlyByFault` | apps/server/src/serviceLauncher.ts:117-165 | In every run the launcher fails, or is going to, only after an error of the child or its exit while nothing was stopping. |
| `ServiceLauncher.ResolvesOnlyByStop` | apps/server/src/serviceLauncher.ts:94-115 | It resolves, or is going to, only after a stop. |
| `ServiceLauncher.OrderlyStopResolves` | apps/server/src/serviceLauncher.ts:94-115 | A stop that finds the child recorded, with no error of the child after it, never fails, and resolves once the child has exited. |
| `ServiceLauncher.FaultFails` | apps/server/src/serviceLauncher.ts:117-165 | A fault that finds the child recorded ends in failure whatever comes after it, and not before the child has exited. |
| `ServiceLauncher.StopWithoutChild` | apps/server/src/serviceLauncher.ts:94-115 | A stop that finds no child recorded resolves at once unless the launcher was settled or failing. |
| `ServiceLauncher.HandlersResumeOnce` | apps/server/src/serviceLauncher.ts:94-125 | A handler that waited for the child settles the launcher, and none waits after it. |
| `ServiceLauncher.StopSettles` | apps/server/src/serviceLauncher.ts:94-125 | In every run a stopping launcher has settled or does so after the exit of its child and one resumed handler. |
| `ServiceLauncher.SecondStopDoesNotWait` | apps/server/src/serviceLauncher.ts:94-115 | A run in which a second stop completes the launcher while the child runs. |
| `ServiceLauncher.StopWaitsExactly` | apps/server/src/serviceLauncher.ts:94-125 | After a stop of a recorded child, and while that child is alive, the launcher is unsettled if and only if no further stop and no error of the child has come in. |
| `ServiceLauncher.Launcher.HandleStop` | apps/server/src/serviceLauncher.ts:94-115 | A stop up to its wait for the child changes the fields as the step of the state machine does. |
| `ServiceLauncher.Launcher.HandleFatal` | apps/server/src/serviceLauncher.ts:117-125 | So does a fatal error. |
| `ServiceLauncher.Launcher.HandleExit` | apps/server/src/serviceLauncher.ts:158-164 | So does the exit of the child, which is fatal only for the recorded one. |
| `ServiceLauncher.Launcher.HandleSpawned` | apps/server/src/serviceLauncher.ts:153-157 | So does the end of the spawn, which records the child or terminates it. |
| `ConfirmDialog.RunKeeps` | apps/web/src/confirmDialog.ts:36-124 | The invariant over view, presented request, queue, hosts and answers holds over every run: the answers are to the oldest requests in order, and everything accepted is answered, presented or queued. |
| `ConfirmDialog.AnsweredInOrder` | apps/web/src/confirmDialog.ts:36-124 | Over every run the k-th accepted request is the k-th answered, if it is answered at all; until then it is the presented one or at its own place in the queue. |
| `ConfirmDialog.AcceptedExactly` | apps/web/src/confirmDialog.ts:60-102 | In every run the accepted requests are those made while a host was registered, with their message and variant, in order. |
| `ConfirmDialog.OldestIsPresented` | apps/web/src/confirmDialog.ts:36-124 | Unless the dialog is closing, the oldest unanswered request is on the screen if there is one; while it closes, the one answered last is. |
| `ConfirmDialog.CloseCompletes` | apps/web/src/confirmDialog.ts:113-124 | The end of closing ends it, and changes nothing at any other time. |
| `ConfirmDialog.AnsweredOnlySo` | apps/web/src/confirmDialog.ts:60-111 | A request is answered only by a response while it is presented, with that response, or negatively by the leaving of the last host. |
| `ConfirmDialog.NoHostNothingPending` | apps/web/src/confirmDialog.ts:60-74 | With no host registered every accepted request has been answered. |
| `ConfirmDialog.ResponseAnswers` | apps/web/src/confirmDialog.ts:104-111 | A response given while a request is presented is its answer for the rest of the run. |
| `ConfirmDialog.ConfirmedExactly` | apps/web/src/confirmDialog.ts:36-124 | In every run a request is confirmed if and only if a positive response was given while exactly that request was on the screen. |
| `ConfirmDialog.Dialog.Register` | apps/web/src/confirmDialog.ts:60-63 | Registering a host changes the fields as the step of the state machine does. |
| `ConfirmDialog.Dialog.Unregister` | apps/web/src/confirmDialog.ts:64-74 | So does unregistering one, the last of which cancels everything pending. |
| `ConfirmDialog.Dialog.ResolvePending` | apps/web/src/confirmDialog.ts:36-43 | The loop answers the presented request and every queued one, in order. |
| `ConfirmDialog.Dialog.RequestConfirmation` | apps/web/src/confirmDialog.ts:80-102 | A request is presented, queued or, without a host, not accepted, as that step says. |
| `ConfirmDialog.Dialog.RespondTo` | apps/web/src/confirmDialog.ts:104-111 | A response answers the presented request as that step says. |
| `ConfirmDialog.Dialog.FinishClosing` | apps/web/src/confirmDialog.ts:113-124 | The end of closing presents the next request or leaves the dialog idle, as that step says. |
| `ReplayMatching.GreedyIffPlaceable` | apps/server/scripts/acp-replay-agent.ts:93-105 | The leftmost search succeeds if and only if the parts can be placed in order without overlap. |
| `ReplayMatching.ExpandedIsJoined` | apps/server/scripts/acp-replay-agent.ts:83-85 | Expanding puts the directory between the stretches around the placeholders, for every path that stands for itself as a replacement. |
| `Texts.LiteralExactly` | apps/server/scripts/acp-replay-agent.ts:83-85 | A replacement stands for itself in every text if and only if none of its dollar signs is followed by `$`, `&`, a backtick or an apostrophe. |
| `ReplayMatching.DollarPathIsGarbled` | apps/server/scripts/acp-replay-agent.ts:83-85 | A path with a dollar sign and an ampersand gets the placeholder back in their place. |
| `ReplayMatching.TextMatchesIffPlaceable` | apps/server/scripts/acp-replay-agent.ts:83-107 | A wildcard text matches if and only if it is the parts of the expanded pattern in order, with arbitrary text before, between and after them. |
| `ReplayMatching.MatchesExactly` | apps/server/scripts/acp-replay-agent.ts:87-120 | A pattern matches a value if and only if it agrees with it at every place: `<any>` with anything, a text with the texts it stands for, lists in length, records in their keys, all else exactly. |
| `ReplayMatching.PlainMatchesOnlyItself` | apps/server/scripts/acp-replay-agent.ts:87-120 | Without wildcards or placeholders the recursive match is structural equality. |
| `ReplayMatching.MatchParts` | apps/server/scripts/acp-replay-agent.ts:95-104 | The offset loop computes the specified search. |
| `ReplayMachine.RunReplaysTranscript` | apps/server/scripts/acp-replay-agent.ts:122-269 | Whenever control returns unstopped, the messages accepted and emitted are exactly the transcript up to the cursor, each with the content of its frame, the cursor waits for the client or is at the end, and every id on the wire is right. |
| `ReplayMachine.NothingMovesAfterStop` | apps/server/scripts/acp-replay-agent.ts:122-136 | After a stop no further input changes anything. |
| `ReplayMachine.AcceptsExactly` | apps/server/scripts/acp-replay-agent.ts:149-269 | In every run that has not stopped, a message is accepted as a frame if and only if it means that frame (a method makes it a request or a notification, an id without one an answer to an open request of the agent) and the transcript waits for it. |
| `ReplayMachine.StopsExactly` | apps/server/scripts/acp-replay-agent.ts:173-269 | A line that is no message the transcript waits for stops the run, with a refusal if it is a request; any other line stops it if and only if the transcript has come to an entry that cannot be played. |
| `ReplayMachine.FrameParts` | apps/server/scripts/acp-replay-agent.ts:149-171 | The matcher sees the kind, the method and the parts a frame has, and nothing else. |
| `ReplayMachine.NumberKeyReads` | apps/server/scripts/acp-replay-agent.ts:162-190 | The key of a numeric id is its decimal text. |
| `ReplayMachine.CleanCloseIsComplete` | apps/server/scripts/acp-replay-agent.ts:271-285 | Closing the input ends without a stop if and only if the whole transcript has been replayed. |
| `ReplayMachine.EveryRunFollows` | apps/server/scripts/acp-replay-agent.ts:122-269 | In every run, stopped or not, the frames accepted and emitted are exactly the transcript up to the cursor, with at most one refusal after them, and every id on the wire is right. |
| `ReplayMachine.AgentIdsAreFresh` | apps/server/scripts/acp-replay-agent.ts:173-210 | Two requests of the agent in any run, stopped or not, never carry ids that read alike. |
| `ReplayMachine.ReplayAgent.EmitInboundFrame` | apps/server/scripts/acp-replay-agent.ts:173-210 | Sends one recorded frame with the right id and remembers it, or stops. |
| `ReplayMachine.ReplayAgent.FlushInbound` | apps/server/scripts/acp-replay-agent.ts:212-238 | The flushing loop terminates and leaves the specified state. |
| `ReplayMachine.ReplayAgent.HandleMessage` | apps/server/scripts/acp-replay-agent.ts:240-269 | Handling one message leaves the specified state. |
| `ComposerSegments.SegmentsAreLossless` | apps/web/src/composer-editor-mentions.ts:96-141 | The segments' sources add up to the prompt, none is empty, no two texts are adjacent, and the tokens are exactly the kept ones. |
| `ComposerSegments.Split` | apps/web/src/composer-editor-mentions.ts:96-141 | The splitting loop computes those segments. |
| `ComposerCursor.PromptGalois` | apps/web/src/composer-logic.ts:57-179 | For every prompt and all in-range positions, collapse(e) is at most c if and only if e is at most expand(c). |
| `ComposerCursor.CollapseAfterExpand` | apps/web/src/composer-logic.ts:57-179 | A collapsed position survives expanding and collapsing. |
| `ComposerCursor.InsideRoundsUp` | apps/web/src/composer-logic.ts:57-179 | A text position strictly inside a token comes back as the token's end. |
| `ComposerCursor.OutsideIsKept` | apps/web/src/composer-logic.ts:57-179 | Every other text position comes back unchanged. |
| `ComposerCursor.ExpandLoop` | apps/web/src/composer-logic.ts:64-99 | The loop over segments computes the recursive expanding map. |
| `ComposerCursor.CollapseLoop` | apps/web/src/composer-logic.ts:137-178 | The loop over segments computes the recursive collapsing map. |
| `ComposerCursor.ExpandCollapsedCursor` | apps/web/src/composer-logic.ts:57-100 | The expanding loop computes the expanding map, for any number passed as a cursor, and stays within the text. |
| `ComposerCursor.CollapseExpandedCursor` | apps/web/src/composer-logic.ts:130-179 | The collapsing loop computes the collapsing map and stays within the collapsed length. |
| `ComposerCursor.IsAdjacentToToken` | apps/web/src/composer-logic.ts:181-207 | The adjacency loop, which never expands the cursor, says yes if and only if the expanded cursor is at that edge of a token. |
| `KeyShortcuts.ParsedKeyIsNormal` | packages/shared/src/keybindings.ts:64-131 | Whatever text is parsed, the key that results is lower-case, trimmed, free of plus signs and no modifier word, or is a blank or a plus sign. |
| `KeyShortcuts.ParseEncodes` | apps/server/src/keybindings.ts:141-152 | Every shortcut with such a key parses back from its encoding. |
| `KeyShortcuts.EncodeNormalizes` | apps/server/src/keybindings.ts:107-152 | Parsing, encoding and parsing again gives the same shortcut. |
| `KeyShortcuts.EncodeInjectiveExactly` | apps/server/src/keybindings.ts:141-152 | Two accepted shortcuts encode alike if and only if they agree in every modifier and in the text of the key, where only a blank and the word "space" share a text. |
| `KeybindingStore.CompeteExactly` | apps/server/src/keybindings.ts:107-120 | Rules that compile, as the backfill compares them, compete if and only if their keys denote the same shortcut and their conditions are the same text. |
| `KeyShortcuts.SameContextUnderConditions` | apps/server/src/keybindings.ts:107-120 | The same for any keys, a NUL character in them or not, under any conditions without one. |
| `WhenExpressions.EncodeInjective` | apps/server/src/keybindings.ts:154-165 | Two condition trees with plain names encode alike only if they are equal. |
| `WhenExpressions.TokenizeEncoding` | packages/shared/src/keybindings.ts:134-181 | The tokenizer recovers exactly the tokens of an encoding, whatever follows it. |
| `WhenExpressions.UnaryReads` | packages/shared/src/keybindings.ts:188-233 | Anywhere in a token list and at any depth, the tokens of a tree parse as that tree if and only if its nesting fits the depth limit, and are refused otherwise. |
| `WhenExpressions.ParseEncodes` | packages/shared/src/keybindings.ts:183-266 | A tree reads back from its encoding if and only if the encoding nests at most 64 parentheses. |
| `WhenExpressions.DeepNegationIsLost` | packages/shared/src/keybindings.ts:183-266 | A text of 64 negations of a conjunction is accepted, and the encoding of what it denotes is refused. |
| `KeybindingStore.Codec.WriteThenLoad` | apps/server/src/keybindings.ts:366-449 | Loading a written rule list gives the rules that compile, without issues if and only if all do. |
| `KeybindingStore.Codec.LoadBindsExactly` | apps/server/src/keybindings.ts:204-221 | Loading any file binds first the defaults whose command no rule of the file binds, then the rules that compile, both in order; only where the maximum is reached are the first ones cut off. |
| `KeybindingStore.Codec.CacheBindsExactly` | apps/server/src/keybindings.ts:660-700 | So do the bindings cached and returned after an upsert or a removal, for the rules they leave. |
| `KeybindingStore.Codec.UpsertedIsBoundLast` | apps/server/src/keybindings.ts:660-678 | An upserted rule that compiles is the last binding, which has precedence over all others. |
| `KeybindingStore.Codec.SyncKeepsUserRules` | apps/server/src/keybindings.ts:470-565 | The startup backfill keeps the file's rules as a prefix, appends only defaults, and never itself goes past the maximum. |
| `KeybindingStore.Codec.SyncIsComplete` | apps/server/src/keybindings.ts:470-565 | After it every default is bound, kept out by a conflicting shortcut, or found the list full. |
| `KeybindingStore.Codec.SyncIsIdempotent` | apps/server/src/keybindings.ts:470-565 | A second backfill changes nothing, whatever the file held. |
| `KeybindingStore.Codec.UpsertKeepsOneCopy` | apps/server/src/keybindings.ts:638-660 | Upsert leaves exactly one copy of the rule, at the end, within the maximum; before it stand the newest of the others without the replaced rule, in their old order and number, and none is lost unless the list was full. |
| `KeybindingStore.Codec.WithoutIsFilter` | apps/server/src/keybindings.ts:645-652 | Dropping rules works rule by rule, so it keeps order and number of the others. |
| `KeybindingStore.Codec.UpsertCacheAgreesWithFile` | apps/server/src/keybindings.ts:660-678 | The cached bindings equal what reloading the written file gives; the whole cached state does if and only if the rule compiles. |
| `KeybindingStore.RefusedRuleIsHidden` | apps/server/src/keybindings.ts:660-678 | Upserting a rule with the key text a+b, which names two keys, caches a state without issues although reloading the file reports one. |
| `KeybindingStore.Codec.RemoveIsExact` | apps/server/src/keybindings.ts:680-700 | Removal drops every copy of the rule and nothing else, and the cached state equals what reloading gives. |
| `KeybindingStore.Store.SyncDefaults` | apps/server/src/keybindings.ts:470-565 | The startup loops leave the specified file, or the old one when the write fails. |
| `KeybindingStore.Store.FindMissing` | apps/server/src/keybindings.ts:499-516 | The loop collects exactly the defaults whose command has no rule and whose shortcut no rule uses. |
| `KeybindingStore.Store.Upsert` | apps/server/src/keybindings.ts:638-678 | File, cache and reply after an upsert, for a malformed file, a failed write and a successful one. |
| `KeybindingStore.Store.FilterRules` | apps/server/src/keybindings.ts:645-652 | The filter drops exactly the upserted and the replaced rule. |
| `KeybindingStore.Store.Remove` | apps/server/src/keybindings.ts:680-700 | File, cache and reply after a removal, for a malformed file, a failed write and a successful one. |
| `LicenseTraversal.CollectedExactly` | scripts/lib/third-party-licenses.ts:513-555 | A package identity is recorded for a bundle if and only if a third-party package with that identity is reachable from one of the bundle's manifests, also through first-party packages. |
| `LicenseTraversal.Collector.VisitManifest` | scripts/lib/third-party-licenses.ts:521-548 | The recursion terminates on every finite graph, cycles included, and extends the visited set to everything reachable. |
| `LicenseTraversal.Collector.Collect` | scripts/lib/third-party-licenses.ts:513-555 | For any dependency graph the collected packages are exactly the reachable ones. |
| `IconFile.CheckExactly` | scripts/lib/icon-export.ts:29-46 | The checks pass if and only if sizes are distinct and in 1 to 256 and no image is empty. |
| `IconFile.CountFits` | scripts/lib/icon-export.ts:48-56 | An accepted list has at most 256 images, so the 16-bit count never overflows. |
| `IconFile.ReadsBack` | scripts/lib/icon-export.ts:48-72 | A reader that follows the directory of the written file recovers every size and every byte, in order. |
| `IconFile.CountReadsBack` | scripts/lib/icon-export.ts:51-56 | It reads the number of images from the header. |
| `IconFile.EntriesAreTrueColour` | scripts/lib/icon-export.ts:58-68 | Every directory entry has zero reserved bytes, one colour plane and 32 bits for each pixel. |
| `IconFile.ImagesTileTheFile` | scripts/lib/icon-export.ts:48-72 | The images lie one after the other from the end of the directory to the end of the file. |
| `IconFile.FitsExactly` | scripts/lib/icon-export.ts:57-70 | All lengths and offsets fit in 32 bits if and only if those of the last image do. |
| `IconFile.WriteDirectory` | scripts/lib/icon-export.ts:57-70 | The loop over computed offsets writes exactly the directory, and is refused if and only if a length or offset needs more than 32 bits. |
| `IconFile.WriteEntry` | scripts/lib/icon-export.ts:58-68 | The eight field writes at computed offsets change exactly the sixteen bytes of the entry. |
| `IconFile.WriteHeader` | scripts/lib/icon-export.ts:51-55 | The header holds the three fields, and the buffer has room for every entry. |
| `IconFile.CheckImages` | scripts/lib/icon-export.ts:34-46 | The checking loop reports the first complaint in order. |
| `IconFile.EncodePngIco` | scripts/lib/icon-export.ts:29-72 | Which error is raised for which input, and the whole file otherwise. |
| `AttachmentIds.SegmentIsStable` | apps/server/src/attachmentStore.ts:28-41 | The segment derived from any thread id, trimmed, lower-cased, cleaned and cut, is never the pending one, and deriving it again changes nothing. |
| `AttachmentPatterns.SegmentExactly` | apps/server/src/attachmentStore.ts:28-41 | What the replacements make of any thread id, in one pass: the id trimmed and in lower case, one dash for each run of other characters than letters, digits and underscores, no dashes and underscores at the ends, cut to 80 characters and trimmed at the end again. |
| `AttachmentIds.SplitIsUnique` | apps/server/src/attachmentStore.ts:16-22 | At most one way to split an id into segment, uuid and extension satisfies the pattern. |
| `AttachmentIds.ParseExactly` | apps/server/src/attachmentStore.ts:67-115 | Parsing finds a split if and only if there is one, and then the only one. |
| `AttachmentPatterns.ReadsPattern` | apps/server/src/attachmentStore.ts:16-22 | An id is read as a segment, a uuid and perhaps an extension if and only if it is words joined by dashes, a dash, groups of 8, 4, 4, 4 and 12 hexadecimal digits, and perhaps a dash and one to ten letters or digits. |
| `AttachmentIds.CreatedIdParses` | apps/server/src/attachmentStore.ts:53-115 | An id created for a usable thread and any extension, empty, dotted or in capitals included, reads back as the segment, uuid and normalised extension it was built from. |
| `AttachmentPatterns.ExtensionPartExactly` | apps/server/src/attachmentStore.ts:53-61 | The extension put into an id is the given one without a leading dot, in lower case, if that has the pattern, none if none or an empty one is given, and "bin" for any other text. |
| `AttachmentPatterns.CreatesExactly` | apps/server/src/attachmentStore.ts:84-92 | An id is created if and only if the thread id has a segment. |
| `AttachmentIds.PendingIdParses` | apps/server/src/attachmentStore.ts:63-81 | So does an id created for a pending upload. |
| `AttachmentIds.StoredNameReadsBack` | apps/server/src/attachmentStore.ts:276-287 | A stored file name gives back its id and is never taken for a partial upload. |
| `AttachmentPatterns.StoredExtensionExactly` | apps/server/src/attachmentStore.ts:43-51 | A file is stored under the extension of its name in lower case if that has the pattern and is not the one of partial uploads, and under ".bin" otherwise. |
| `AttachmentPatterns.IdOfFileExactly` | apps/server/src/attachmentStore.ts:276-287 | A file name carries an id if and only if it is that id, not empty and without dots, a dot, and a rest without dots. |
| `AttachmentIds.StoredFileIsStale` | apps/server/src/attachmentStore.ts:231-274 | A stored file is stale if and only if its id is a pending one and it is more than a day old. |
| `AttachmentIds.SweepSparesThreadFiles` | apps/server/src/attachmentStore.ts:231-274 | No file a thread owns is ever deleted by the sweep, however old it is. |
| `AttachmentIds.PendingFilesExpire` | apps/server/src/attachmentStore.ts:231-274 | A pending upload is stale if and only if it is more than a day old. |
| `AttachmentIds.Sweep` | apps/server/src/attachmentStore.ts:231-274 | The sweep deletes exactly the accessible stale entries and counts them. |
| `AttachmentPatterns.StaleExactly` | apps/server/src/attachmentStore.ts:231-274 | For any file name: a partial upload is stale if and only if it is more than an hour old, and any other file if and only if its name carries an id of the pending segment and it is more than a day old. |
| `AttachmentPatterns.SweepsEachEntry` | apps/server/src/attachmentStore.ts:231-274 | The sweep decides each entry for itself and keeps the others in order. |
| `FaviconStorage.ReadsArePlain` | apps/web/src/browserFaviconStore.ts:82-118 | Whatever writes and removals threw, a read that does not throw sees what a plain map would hold. |
| `FaviconStorage.FailedReadExactly` | apps/web/src/browserFaviconStore.ts:93-100 | A read that throws sees it if and only if this session has named the item or the browser's storage started without it. |
| `FaviconStorage.NextSessionFinds` | apps/web/src/browserFaviconStore.ts:101-118 | The next session finds what the calls that did not throw left, which under a name whose last call did not throw is what the plain map held. |
| `FaviconStorage.Storage.GetItem` | apps/web/src/browserFaviconStore.ts:93-100 | Reads the shadow for shadowed names and for reads that throw, else the browser's storage. |
| `DataUrls.PaddingExactly` | apps/server/src/imageMime.ts:100-110 | The checks on length and padding accept exactly the padded groups of section 4 of RFC 4648. |
| `DataUrls.BlanksDoNotMatter` | apps/server/src/imageMime.ts:82-99 | Blanks anywhere in the payload make no difference. |
| `DataUrls.UrlReadsBack` | apps/server/src/imageMime.ts:53-113 | A data URL put together from a plain media type and padded base64 reads back as both. |
| `DataUrlGrammar.ParsedExactly` | apps/server/src/imageMime.ts:33-113 | Any text reads as a media type and data if and only if, apart from blanks around it, it is the scheme, a header without commas, a comma and a payload; the first parameter of the header that is not blank says the media type and a later one, the last, says base64; and the payload without its blanks is the data: whole groups of the 64 characters of section 4 of RFC 4648 with at most two padding characters at the end. |
| `DataUrls.CollectRuns` | apps/server/src/imageMime.ts:82-99 | The pass that collects stretches between blanks gives the payload without its blanks, or nothing if any other character occurs. |
| `DataUrls.CheckPadding` | apps/server/src/imageMime.ts:100-110 | The length test and the loop over padding accept exactly well-padded text. |
| `DataUrls.CollectParts` | apps/server/src/imageMime.ts:64-70 | The loop collects the trimmed parameters that are not empty. |
| `DataUrls.ParseBase64DataUrl` | apps/server/src/imageMime.ts:53-113 | The loops compute the specified reading of any text whatever. |

## Left out

- The browser history store.
- The rest of the favicon store (pending captures, aliases, eviction) and falling back to memory when the browser has no storage at all.
- Reading the extension of an image from its media type or file name.
- AttachmentIds.CreatedIdParses: ids are read without the path normalisation that comes before the pattern, which leaves a name without separators and dots alone.
- KeyShortcuts.ParsedKeyIsNormal: lower-casing is modelled for the letters A to Z; other letters are left alone, here and in thread ids and header parameters.
- Claiming a pending attachment for a thread, deterministic attachment ids, and file-system lookups of attachments.
- Finding the override of a package notice, licence texts, notices and the bundled-module scan; resolving a dependency is a given function.
- Detecting the composer's trigger words and replacing text ranges.
- Folding legacy project settings and recomputing the project views derived from other settings, restoring used providers, resolving the text-generation provider, and applying a settings patch: an update is any function of the current settings that may fail.
- Schema encoding and decoding: writing settings or rules and reading them is the identity, and a malformed file is a separate case.
- The collectors of composer tokens: tokens are any list, in any order, whose source is the text they span.
- The dialog's listeners and its reset for tests.
- The replay agent's status file, exit code and diagnostics.
- The launcher's kill timer and stop-marker file.
- Closing the worker's scope and interrupting callers of the command gate, and interrupting a theme refresh after its directory read: only an interruption during the read is a step.
- Readers that run during a settings update, and the file watchers that reload settings and rules.
- The effect runtime, logging, spans, real time and process crashes.
- Reading the dimensions of a PNG file.
- Sizes of icon images are whole numbers; the check for fractions is not modelled.
- The visited set of the dependency walk holds pairs of bundle and package instead of their joined text.
- The secret texts are characters; their byte encoding matters only through the byte order mark.
