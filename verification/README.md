# Versionable: the version-aware decode pipeline, in Dafny

Versionable decodes persisted, schema-versioned records into Swift values.
Each `Versionable` type has a `Version` enum whose cases are ordered by raw
value. Its current version is `static var version`; unless the type
provides its own, it is the last declared case. `migrate(to:)`
gives, for each case, either no migration (`.none`) or a closure that
rewrites the untyped `[String: Any]` payload.

There are two decoders, and both do the same thing:
- read the embedded version;
- if it is current, decode strictly;
- otherwise turn the record into an untyped payload, keep the migrations whose
  version is strictly newer than the embedded one, and run them in order,
  writing `payload["version"]` after each step;
- then decode strictly.

`VersionableContainer` takes its migrations from the type's declared cases.
It wraps the record as `{version, instance}` and, in debug builds, asserts
that the cases are declared in ascending order. `VersionableDecoder` takes
its migrations from a registry, keyed by type name, that it keeps sorted by
version.

This project models that pipeline over an abstract payload:
- A version is `Version(rawValue: int)`.
- A payload is a `map<string, Value>` over a small JSON-like `Value` union.
- A type is a `Schema` value holding its name, `allCases`, its current
  `version` (one of the cases), its `migrate` table and the stored properties
  its synthesized decoder requires.
- Strict decoding succeeds exactly when the payload has that shape:
  - a `version` key holding a declared case;
  - every property present, with the right kind, and an `Int` property within
    the 64-bit range of Swift's `Int`.

Modules, one per source file, plus two shared ones:

- `Wrappers` (wrappers.dfy): `Option` and `Result`.
- `Versionable` (versionable.dfy): version order, the current version, `Value`
  and `Payload`, `Migration` and its dispatch, `VersionContainer`'s version
  read, and the abstract strict decoder and encoder.
- `MigrationChain` (migration_chain.dfy): the filter, fold and stamp shared by
  both decoders. It also holds the lemmas about order, cumulative steps and
  the final version.
- `VersionableDecoding` (versionable_decoder.dfy): `require`, and the class
  `VersionableDecoder`. Its `migrations` field is reassigned by
  `RegisterMigration`, an append followed by a stable sort. `Decode` runs its
  filter/apply/stamp loop. The class invariant says every list is sorted.
- `VersionableContainer` (versionable_container.dfy): the envelope encoding,
  and `Decode`, the imperative `init(from:)` loop. `Decode` is proved equal
  to the specification function `Decoding`, and the lemmas are about
  `Decoding`.
- `Stubs` (stubs.dfy): the `Simple` and `Complex` sample types, with the
  scenarios run on them.

Behaviours of the Swift code worth noting:
- The container runs migrations in the declaration order of `allCases`, not in
  sorted order. Only a debug build checks that the two agree
  (`DebugOrderAssertion`).
- An embedded version that is not a declared case is rejected. Decoding the
  `Version` enum fails, so the decode throws `MalformedEnvelope` (`EarlyErrors`).
- With nothing registered for a type, the registry decoder passes an old
  record to the strict decode unmigrated, which throws `StrictDecodeFailed` if
  required fields are missing (`RegistryWithoutMigrations`,
  `ComplexRegistryWithoutMigrationsThrows`). The container, by contrast,
  rewrites `version` for every newer case even when its migration is `.none`.
- Both decoders take the fast path only at `Type.version`. The container runs
  every declared case newer than the record. With ascending cases it
  therefore ends at the last declared case, whatever `Type.version` is, so a
  type whose own `static var version` is an earlier case migrates older
  records past it (`Converges`). The registry decoder ends at the newest
  registered step that is newer than the record (`RegistryRunsNewerSteps`).
- `Tests/VersionableTests/VersionableDecoderTests.swift:37-43` expects a
  registry decoder with nothing registered to migrate `{version: 1}` to
  `Complex` v3. The decoder in `Sources/Versionable/VersionableDecoder.swift`
  migrates only through registered steps, so
  `ComplexRegistryWithoutMigrationsThrows` proves this decode throws.
  `RegistryScenario` proves the intended outcome once both migrations are
  registered.

## Model

| member | source | states |
|---|---|---|
| `Versionable.LessIsStrictTotalOrder` | Sources/Versionable/Versionable.swift:5-9 | comparing raw values is irreflexive, asymmetric, transitive and total on distinct versions |
| `Versionable.Less` | Sources/Versionable/Versionable.swift:5-9 | versions compare by raw value; `LessIsStrictTotalOrder` proves it a strict total order |
| `Versionable.CurrentVersion` | Sources/Versionable/Versionable.swift:24-29 | the default version is the last declared case; if the cases are ascending, it is newer than every other case |
| `Versionable.Apply` | Sources/Versionable/Versionable.swift:35-42 | `.none` leaves the payload unchanged; `.migrate(c)` yields exactly `c(payload)` |
| `Versionable.ReadVersion` | Sources/Versionable/Versionable.swift:45-47 | reading the version-only envelope succeeds iff the record is keyed and its `version` is the raw value of a declared case, and returns that case; otherwise `MalformedEnvelope` |
| `Versionable.VersionContainerReadsVersion` | Tests/VersionableTests/VersionableTests.swift:23-30 | reading an encoded value through the version container returns that value's version |
| `Versionable.AsObject` | Sources/Versionable/VersionableContainer.swift:35 | the `as? [String: Any]` cast succeeds exactly on key/value objects and returns their entries |
| `Versionable.Conforms` | Sources/Versionable/VersionableContainer.swift:31 | the shape the synthesized decoder accepts: a keyed record whose `version` is a declared case and which holds every stored property with its kind; `StrictDecode` succeeds exactly on it |
| `Versionable.StrictDecode` | Sources/Versionable/VersionableContainer.swift:52 | strict decode succeeds iff the payload has the type's shape; it then yields a valid instance carrying the payload's version and property values, and otherwise throws `StrictDecodeFailed` |
| `Versionable.EncodeInstance` | Sources/Versionable/VersionableContainer.swift:20 | an instance's encoding carries its version's raw value under `version` |
| `Versionable.StrictDecodeEncodeInstance` | Sources/Versionable/VersionableContainer.swift:20-31 | strictly decoding what an instance encoded gives the instance back |
| `MigrationChain.Stamp` | Sources/Versionable/VersionableContainer.swift:49 | after the stamp, `version` holds the step's raw value and every other key is unchanged |
| `MigrationChain.Step` | Sources/Versionable/VersionableContainer.swift:47-50 | one loop iteration: the step's migration, then the stamp of its version; `StepSeesEarlierSteps` states what it sees and leaves |
| `MigrationChain.Migrated` | Sources/Versionable/VersionableDecoder.swift:29-32 | the `forEach` over the kept steps as a left fold; `MigratedSnoc`, `MigratedConcat` and `MigratedStampsLast` state its properties |
| `MigrationChain.MigrationPhase` | Sources/Versionable/VersionableContainer.swift:43-52 | the migration phase shared by both decoders: the strict decode of the payload after the pending steps, and the versions that ran; `RunsNewerCases` and `RegistryRunsNewerSteps` characterise it |
| `MigrationChain.Pending` | Sources/Versionable/VersionableContainer.swift:46 | the filter keeps only steps strictly newer than the encoded version, and never more steps than given |
| `MigrationChain.PendingConcat` | Sources/Versionable/VersionableContainer.swift:46 | the filter keeps the steps' order: it distributes over concatenation |
| `MigrationChain.PendingVersions` | Sources/Versionable/VersionableContainer.swift:46 | a version is pending iff it is listed and strictly newer than the encoded one |
| `MigrationChain.NothingNewerNothingPending` | Sources/Versionable/VersionableContainer.swift:46 | if no listed version is newer than the encoded one, nothing is pending |
| `MigrationChain.AllNewerAllPending` | Sources/Versionable/VersionableContainer.swift:46 | if every listed version is newer, all steps are pending, in order |
| `MigrationChain.PendingIsSuffix` | Sources/Versionable/VersionableContainer.swift:43-46 | on a sorted list, the pending steps are exactly a suffix, and every earlier step is not newer |
| `MigrationChain.MigratedSnoc` | Sources/Versionable/VersionableContainer.swift:47-50 | running one more step continues from the result of all earlier steps (left fold) |
| `MigrationChain.MigratedConcat` | Sources/Versionable/VersionableContainer.swift:47-50 | folding over `a + b` is folding over `b` the result of folding over `a` |
| `MigrationChain.StepSeesEarlierSteps` | Sources/Versionable/VersionableContainer.swift:47-50 | step `i` is applied to the cumulative result of steps `0..i`; afterwards `payload["version"]` is step `i`'s raw value |
| `MigrationChain.MigratedStampsLast` | Sources/Versionable/VersionableContainer.swift:49 | after a non-empty chain, the payload carries the last step's version |
| `MigrationChain.ChainEndsAtLastVersion` | Sources/Versionable/VersionableContainer.swift:46-49 | on a sorted list whose last version is newer than the encoded one, some step runs and the payload ends stamped with the last version |
| `VersionableDecoding.Require` | Sources/Versionable/VersionableDecoder.swift:43-49 | `require(x)` returns the wrapped value when `x` is present; otherwise it throws the given error, `RequireIsNil` by default |
| `VersionableDecoding.InsertionIndex` | Sources/Versionable/VersionableDecoder.swift:13 | the stable sort's insertion point comes after every step not newer than the new one and before a newer one |
| `VersionableDecoding.InsertSorted` | Sources/Versionable/VersionableDecoder.swift:11-13 | the result is the old list with the new step inserted at the insertion point and nothing else changed |
| `VersionableDecoding.InsertSortedKeepsSorted` | Sources/Versionable/VersionableDecoder.swift:13 | inserting into a sorted list keeps it sorted |
| `VersionableDecoding.InsertSortedVersions` | Sources/Versionable/VersionableDecoder.swift:11-13 | insertion grows the list by exactly one and adds exactly the new version to the multiset of versions |
| `VersionableDecoding.InsertAfterAll` | Sources/Versionable/VersionableDecoder.swift:13 | a step not older than any step in the list goes at the end |
| `VersionableDecoding.SortByVersion` | Sources/Versionable/VersionableDecoder.swift:13 | sorting yields a sorted permutation of the steps, with their migrations: same length, same multiset of steps, same multiset of versions |
| `VersionableDecoding.InsertSortedSteps` | Sources/Versionable/VersionableDecoder.swift:11-13 | inserting adds exactly the new step, with its migration, to the multiset of steps |
| `VersionableDecoding.SortSortedIsIdentity` | Sources/Versionable/VersionableDecoder.swift:13 | sorting an already sorted list leaves it unchanged |
| `VersionableDecoding.AppendThenSort` | Sources/Versionable/VersionableDecoder.swift:11-13 | appending to a sorted list and then sorting equals inserting at the insertion point |
| `VersionableDecoding.VersionableDecoder.constructor` | Sources/Versionable/VersionableDecoder.swift:6-7 | a new decoder has no registrations and satisfies the sortedness invariant |
| `VersionableDecoding.VersionableDecoder.Registered` | Sources/Versionable/VersionableDecoder.swift:27 | a name's list is its entry in `migrations`, or empty when it has none |
| `VersionableDecoding.UpdateKeepsSorted` | Sources/Versionable/VersionableDecoder.swift:10-14 | storing a sorted list under one type name keeps every type's list sorted |
| `VersionableDecoding.VersionableDecoder.RegisterMigration` | Sources/Versionable/VersionableDecoder.swift:9-15 | keeps every list sorted; the named type's list becomes its old list with the new step inserted in version order; every other name is unchanged |
| `VersionableDecoding.RegistryDecoding` | Sources/Versionable/VersionableDecoder.swift:17-36 | the registry decode as a function: version read, fast path at `type.version`, `require`, then the migration phase over the registered list; `Decode` is proved equal to it |
| `VersionableDecoding.VersionableDecoder.Decode` | Sources/Versionable/VersionableDecoder.swift:17-36 | the loop's result and the versions it ran equal `RegistryDecoding` of the registered list |
| `VersionableDecoding.RegistryFastPath` | Sources/Versionable/VersionableDecoder.swift:21-23 | a serialized version equal to the type's version gives the strict decode and runs no migration |
| `VersionableDecoding.RegistryRunsNewerSteps` | Sources/Versionable/VersionableDecoder.swift:27-32 | otherwise the decoder runs exactly the registered steps newer than the serialized version, folding and stamping in stored order; on a sorted registry they are its tail |
| `VersionableDecoding.RegistryWithoutMigrations` | Sources/Versionable/VersionableDecoder.swift:25-35 | with nothing registered, no migration runs and the record reaches the strict decode unchanged |
| `VersionableContainer.DeclaredSteps` | Sources/Versionable/VersionableContainer.swift:43-48 | the candidate steps are the declared cases in order, each with its own `migrate(to:)` |
| `VersionableContainer.DeclaredStepsSorted` | Sources/Versionable/VersionableContainer.swift:37-46 | cases declared in ascending order give a sorted list of steps |
| `VersionableContainer.Encode` | Sources/Versionable/VersionableContainer.swift:15-22 | the envelope holds exactly `version`, the instance's raw version, and `instance`, the instance's own encoding |
| `VersionableContainer.InstanceData` | Sources/Versionable/VersionableContainer.swift:27 | the `instance` data is present iff the envelope is keyed and has that key |
| `VersionableContainer.Decoding` | Sources/Versionable/VersionableContainer.swift:24-53 | `init(from:)` as a function: version read, instance data, fast path at `Type.version`, `require`, the debug order check, then the migration phase; `Decode` is proved equal to it |
| `VersionableContainer.Decode` | Sources/Versionable/VersionableContainer.swift:24-53 | the in-place loop's result and the versions it ran equal `Decoding` |
| `VersionableContainer.FastPath` | Sources/Versionable/VersionableContainer.swift:30-33 | an encoded version equal to `Type.version` gives the strict decode of the data and runs no migration |
| `VersionableContainer.RunsNewerCases` | Sources/Versionable/VersionableContainer.swift:43-50 | otherwise the migrations run are exactly those of the cases strictly newer than the encoded version, folded and stamped in declaration order; with ascending cases they are the tail of `allCases`; the result is the strict decode of the migrated payload |
| `VersionableContainer.Converges` | Sources/Versionable/VersionableContainer.swift:43-52 | with ascending cases and an encoded version that is neither `Type.version` nor the last case, some step runs, the migrated payload is stamped with the last case, and a successful decode yields an instance at the last case, which is `Type.version` when the type keeps the default |
| `VersionableContainer.NothingNewerPassesThrough` | Sources/Versionable/VersionableContainer.swift:46-52 | when no declared case is newer than the encoded version, no step runs and the payload reaches strict decode unchanged; with ascending cases this is a record at the last case of a type whose `Type.version` is an earlier case, otherwise a release build with cases out of order |
| `VersionableContainer.EarlyErrors` | Sources/Versionable/VersionableContainer.swift:25-35 | these throw before any migration: a missing, ill-typed or undeclared `version`; a missing `instance`; and, on the migration path, an `instance` that is not a key/value object |
| `VersionableContainer.DebugOrderAssertion` | Sources/Versionable/VersionableContainer.swift:37-41 | a debug build with cases out of order fails the assertion on the migration path; a release build never does |
| `VersionableContainer.ResultIsValid` | Sources/Versionable/VersionableContainer.swift:24-53 | whatever path it takes, a successful decode returns a valid instance of the type |
| `VersionableContainer.RoundTrip` | Sources/Versionable/VersionableContainer.swift:15-33 | encoding an instance at `Type.version` and decoding it gives the instance back, with no migration |
| `VersionableContainer.OlderInstanceMigrates` | Sources/Versionable/VersionableContainer.swift:15-52 | for a type keeping the default `Type.version`, encoding an older instance and decoding it runs the migrations of exactly the later cases and stamps `Type.version` |
| `Stubs.SimpleMigrate` | Tests/VersionableTests/Stubs.swift:14-19 | `Simple`'s only migration is `.none` |
| `Stubs.SimpleSchema` | Tests/VersionableTests/Stubs.swift:4-19 | `Simple` is well formed and ascending, and keeps the default `Simple.version`, v1 |
| `Stubs.SetDefaultText` | Tests/VersionableTests/Stubs.swift:45-47 | the v2 migration sets `text` to "defaultText" and changes no other key |
| `Stubs.SetNumber` | Tests/VersionableTests/Stubs.swift:49-51 | the v3 migration sets `number` to 1 when `text` is "defaultText" and to 200 otherwise, changing no other key |
| `Stubs.ComplexMigrate` | Tests/VersionableTests/Stubs.swift:40-53 | `migrate(to: .v1)` is `.none`; v2 and v3 map to the two closures |
| `Stubs.ComplexSchema` | Tests/VersionableTests/Stubs.swift:27-38 | `Complex` cases v1 < v2 < v3 are declared ascending, and it keeps the default `Complex.version`, v3 |
| `Stubs.SimpleContainerRoundTrip` | Tests/VersionableTests/VersionableContainerTests.swift:18-24 | a `Simple` in a container decodes back with its `text` |
| `Stubs.ComplexContainerMigrates` | Tests/VersionableTests/VersionableContainerTests.swift:35-41 | a `Complex` at v1 runs v2 then v3 and decodes to v3 with `text == "defaultText"` and `number == 1` |
| `Stubs.ComplexOrderMatters` | Tests/VersionableTests/Stubs.swift:45-51 | running the v3 step before v2 gives `number == 200` instead of 1, so step order changes the result |
| `Stubs.ComplexRejectsOversizedNumber` | Tests/VersionableTests/Stubs.swift:27-31 | a current `Complex` record whose `number` does not fit in `Int` fails the strict decode |
| `Stubs.SimpleRegistryDecodes` | Tests/VersionableTests/VersionableDecoderTests.swift:17-26 | the registry decoder reads a current `Simple` record strictly |
| `Stubs.SimpleRegistryRejectsMissingText` | Tests/VersionableTests/VersionableDecoderTests.swift:28-35 | a current `Simple` record without `text` throws |
| `Stubs.ComplexRegistryWithoutMigrationsThrows` | Sources/Versionable/VersionableDecoder.swift:25-35 | with nothing registered, `{version: 1}` for `Complex` is not migrated and throws `StrictDecodeFailed` |
| `Stubs.ComplexRegistrationsSorted` | Sources/Versionable/VersionableDecoder.swift:9-15 | registering v3 and then v2 for `Complex` stores the steps as `[v2, v3]` |
| `Stubs.ComplexRegistryMigrates` | Sources/Versionable/VersionableDecoder.swift:25-35 | a registry holding `[v2, v3]` for `Complex` migrates `{version: 1}` to v3 with `text == "defaultText"` and `number == 1`, running v2 and then v3 |
| `Stubs.RegistryScenario` | Sources/Versionable/VersionableDecoder.swift:9-35 | registering v3 then v2 for `Complex` and decoding `{version: 1}` yields v3 with `text == "defaultText"` and `number == 1` |

## Left out

- Mock fixtures and simulator paths (`Sources/Versionable/Versionable.swift:49-74`, `static var mock`): file-system and environment I/O.
- JSON bytes: `JSONEncoder`, `JSONDecoder` and `JSONSerialization` are Foundation calls. The model treats serialization as the identity on the abstract `Value`.
- The nested `instance` data: the model holds it as the nested `Value`, not as bytes encoded inside the envelope.
- Codable synthesis: strict decoding is the shape check `Conforms`. All of its failures are one error, `StrictDecodeFailed`, so the model does not say which key Swift reports first.
- Raw-value types: only `Int`-backed version enums are modelled, like both sample types.
- Numbers: payload numbers are integers. Fractional numbers, `Double` and `Float` properties and the other integer widths are not modelled; an `Int` property accepts exactly the 64-bit range.
- Swift's `sorted`: modelled as a stable sort, so a version registered twice goes after the earlier entry. Swift does not document stability.
- `VersionableDecoder.swift` line 4 uses the protocol's version type as a concrete type, and line 31 stamps the enum itself. The model stores and stamps the version's raw value, as the container does.
- VersionableDecoding.VersionableDecoder.RegisterMigration: does not require the version to be a case of the type's enum. Swift's generic signature intends that constraint, and nothing proved here depends on it.
- Stubs.ComplexMigrate: returns `.none` for versions that are not `Complex` cases. Swift's switch is exhaustive over the enum, so it never receives them.
- The debug-build `assert` traps the process; the model returns it as the error `AssertionFailure`.
- The debug check compares `allCases` with its sorted copy. The model tests strict ascent instead, which is the same thing because an enum's raw values are distinct.
- Concurrency, and the process-wide lifetime of a registry, are not modelled.
- Performance tests and `Package.swift`: no behaviour to state.
