# SealVault app model and keychain contract, in Dafny

This project models two self-contained pieces of the SealVault wallet:

- **The profile state of the iOS view model `GlobalModel`.** This covers the reconciliation
  of the `profiles` dictionary with a fresh list of core profile snapshots (`updateProfiles`).
  It also covers the derived views: `profileList` sorted by lower-cased display name,
  `activeProfile`, and the dapp filter of `fetchTopDapps`. Finally it covers the
  state-update part of `refreshProfiles`, the dictionary construction in `init`, and the
  three-way decision in `shouldRestoreBackup`.
- **The keychain contract of the Rust core.** `KeychainImpl` is a keyed store. `get` reads
  by name, `delete_local` is idempotent, and `put_local` refuses a name that is already
  taken. The `Keychain` struct forwards each call to its backend.

Modelling choices:

- `Profile` is a Swift class, so "the same object" matters. Each `Profile` value carries a
  `handle`, which is the object's identity. A `Directory` pairs the dictionary with
  `nextHandle`, the allocator of fresh identities. An object created during reconciliation
  gets a handle at or above the old `nextHandle`.
- The calls into the core (`listProfiles`, `activeProfileId`, `isBackupEnabled`,
  `topDapps`) become parameters. Each is an `Option`, and `None` means the call threw and the
  Swift code caught the error.
- `shouldRestoreBackup` gets the file system as the set of existing paths. It gets the
  iCloud backup directory as an optional path.
- Key names and key material are opaque type parameters.

Files: `wrappers.dfy` (Option, Result), `text.dfy` (case folding, string order),
`profiles.dfy` (records), `reconcile.dfy` (`updateProfiles`), `sorting.dfy` (the profile
order), `views.dfy` (`profileList`, `activeProfile`, dapp filter), `global_model.dfy`
(`init`, `refreshProfiles`, `fetchTopDapps`, `shouldRestoreBackup`), `keychain.dfy`.

Two behaviours of the code worth knowing:

- When a refresh removes the profile that `activeProfileId` names, the code keeps the stale
  id unless the core reports a new active id. `activeProfile` then yields nothing and the top
  dapps become empty. `RefreshProfiles` and `ActiveProfile` state this.
- The profile order compares `lowercased()` strings with `<`. `SortByName` orders by the
  model's `Lower` and `Less`, which differ from Swift's `lowercased()` and `<` as listed under
  "## Left out".

## Model

| member | source | states |
|---|---|---|
| Text.Lower | ios/SealVaultApp/Model/GlobalModel.swift:27 | lower-casing keeps the length, folds each character, and leaves no upper-case ASCII letter |
| Text.Less | ios/SealVaultApp/Model/GlobalModel.swift:27 | the string `<` never holds between equal strings, and a proper prefix is always smaller |
| Text.LessIffFirstDifference | ios/SealVaultApp/Model/GlobalModel.swift:27 | the string `<` holds exactly when the left string is a proper prefix or is smaller at the first position where the two differ |
| Text.LessIrreflexive | ios/SealVaultApp/Model/GlobalModel.swift:27 | no name sorts before itself |
| Text.LessTransitive | ios/SealVaultApp/Model/GlobalModel.swift:27 | the comparator is transitive, as `sorted(by:)` requires |
| Text.LessTotal | ios/SealVaultApp/Model/GlobalModel.swift:27 | any two distinct names are ordered one way or the other |
| Profiles.FromCore | ios/SealVaultApp/Model/GlobalModel.swift:51 | a profile built from a snapshot has the given identity, the snapshot's id, and shows the snapshot's name and dapps |
| Profiles.UpdateFromCore | ios/SealVaultApp/Model/GlobalModel.swift:49 | refreshing in place keeps the object's identity and id and takes name and dapps from the snapshot |
| Reconcile.IdsOf | ios/SealVaultApp/Model/GlobalModel.swift:41 | the set of incoming ids has no more elements than the snapshot list |
| Reconcile.IdsOfMembers | ios/SealVaultApp/Model/GlobalModel.swift:41 | an id is among the incoming ids exactly when some snapshot carries it |
| Reconcile.Latest | ios/SealVaultApp/Model/GlobalModel.swift:47-53 | a snapshot carrying the id exists exactly when the id is incoming, and it carries that id |
| Reconcile.LatestIsLast | ios/SealVaultApp/Model/GlobalModel.swift:47-53 | the snapshot whose data survives the loop is the one at the last position with that id |
| Reconcile.ApplyOne | ios/SealVaultApp/Model/GlobalModel.swift:48-53 | one loop step refreshes the existing object in place or files a new object under the snapshot's id, and touches no other id |
| Reconcile.ApplyAll | ios/SealVaultApp/Model/GlobalModel.swift:47-54 | the second loop ends with the old keys plus the incoming ids, and never lowers the identity allocator |
| Reconcile.ApplyAllKeepsObjects | ios/SealVaultApp/Model/GlobalModel.swift:48-49 | an id filed before the loop keeps the same object and the same id |
| Reconcile.ApplyAllUntouched | ios/SealVaultApp/Model/GlobalModel.swift:47-54 | a profile no snapshot mentions is left exactly as it was |
| Reconcile.ApplyAllFresh | ios/SealVaultApp/Model/GlobalModel.swift:50-52 | an incoming id with no profile gets an object created during the loop, filed under that id |
| Reconcile.ApplyAllShowsLatest | ios/SealVaultApp/Model/GlobalModel.swift:47-54 | after the loop each mentioned profile shows the last snapshot with its id |
| Reconcile.ApplyAllCount | ios/SealVaultApp/Model/GlobalModel.swift:50-52 | the loop creates exactly one object per incoming id that had no profile |
| Reconcile.ApplyAllDistinct | ios/SealVaultApp/Model/GlobalModel.swift:47-54 | the loop never files one object under two ids |
| Reconcile.Retain | ios/SealVaultApp/Model/GlobalModel.swift:41-46 | the removal loop keeps exactly the old ids that are also incoming, with their objects unchanged |
| Reconcile.UpdateProfiles | ios/SealVaultApp/Model/GlobalModel.swift:40-55 | the keys become exactly the incoming ids; surviving ids keep their object; each unseen id gets one new object; every profile shows its latest snapshot; validity is preserved |
| Reconcile.UpdateProfilesFixedPoint | ios/SealVaultApp/Model/GlobalModel.swift:40-55 | a dictionary that already mirrors the snapshots is left unchanged, with no object replaced or created |
| Reconcile.UpdateProfilesIdempotent | ios/SealVaultApp/Model/GlobalModel.swift:40-55 | reconciling twice with the same snapshots gives the same result as reconciling once |
| Reconcile.UpdateProfilesDropsVanished | ios/SealVaultApp/Model/GlobalModel.swift:41-46 | a profile survives exactly when some snapshot carries its id |
| Sorting.Before | ios/SealVaultApp/Model/GlobalModel.swift:27 | the `sorted(by:)` comparator only puts a profile first when the display names differ, and never both ways round |
| Sorting.InsertByName | ios/SealVaultApp/Model/GlobalModel.swift:27 | inserting into a sorted list adds exactly that profile and keeps the list sorted |
| Sorting.SortByName | ios/SealVaultApp/Model/GlobalModel.swift:27 | the sort returns a permutation of its input in ascending lower-cased name order |
| Views.DictionaryValues | ios/SealVaultApp/Model/GlobalModel.swift:27 | the dictionary's values are listed once per key; none repeats when each profile is filed under its own id |
| Views.ProfileList | ios/SealVaultApp/Model/GlobalModel.swift:26-28 | `profileList` has one entry per dictionary key, holds exactly its values (a permutation of them, for a dictionary that files each profile under its own id), and is sorted by lower-cased name |
| Views.FirstWithId | ios/SealVaultApp/Model/GlobalModel.swift:23 | the result is nothing exactly when no entry has the id; otherwise it is the earliest entry with that id |
| Views.ActiveProfile | ios/SealVaultApp/Model/GlobalModel.swift:22-24 | there is no active profile when the id is nil or matches no profile; otherwise it is the unique profile filed under that id |
| Views.KeepListed | ios/SealVaultApp/Model/GlobalModel.swift:297 | the filter keeps every dapp whose id is listed, with its multiplicity, drops the others, and preserves order |
| GlobalModel.IndexById | ios/SealVaultApp/Model/GlobalModel.swift:34 | building the dictionary fails exactly when two profiles share an id; otherwise each profile is filed under its id and nothing else is |
| GlobalModel.Init | ios/SealVaultApp/Model/GlobalModel.swift:32-38 | `init` traps on duplicate ids; otherwise it files every profile under its id, keeps the given active id, and starts with no top dapps |
| GlobalModel.FetchTopDapps | ios/SealVaultApp/Model/GlobalModel.swift:288-298 | the result is empty when the core call failed or no profile is active; otherwise it is the active profile's dapps filtered to the listed ids |
| GlobalModel.RefreshProfiles | ios/SealVaultApp/Model/GlobalModel.swift:243-255 | profiles change only when the list was fetched; the active id is overwritten only when one was fetched; the backup flag is the fetched one or false; the top dapps are the new active profile's dapps filtered to the fetched ids, and empty when no profile is active |
| GlobalModel.ShouldRestoreBackup | ios/SealVaultApp/Model/GlobalModel.swift:77-96 | recovery is offered exactly when there is no database file, a backup directory is available, and it exists; it is offered for that directory |
| Keychains.ImplGet | core/src/encryption/keychains/keychain.rs:26-27 | `get` succeeds exactly when the name is stored and returns the stored key |
| Keychains.ImplDeleteLocal | core/src/encryption/keychains/keychain.rs:29-31 | `delete_local` always succeeds, removes the name, and keeps every other item |
| Keychains.ImplPutLocal | core/src/encryption/keychains/keychain.rs:33-39 | `put_local` succeeds exactly when the name is free; a refused put changes nothing; an accepted one adds only that item |
| Keychains.PutThenGet | core/src/encryption/keychains/keychain.rs:26-39 | a key put under a free name is read back by `get` |
| Keychains.DuplicatePutKeepsExisting | core/src/encryption/keychains/keychain.rs:33-34 | a put under a taken name fails with a duplicate error and the existing key stays readable |
| Keychains.DeleteIdempotent | core/src/encryption/keychains/keychain.rs:29-31 | deleting twice leaves the same keychain and result as deleting once |
| Keychains.DeleteAbsentIsNoop | core/src/encryption/keychains/keychain.rs:29-31 | deleting an absent name succeeds and changes nothing |
| Keychains.DeleteThenPutAccepted | core/src/encryption/keychains/keychain.rs:29-34 | after a delete, a put under that name is accepted and its key is readable |
| Keychains.OtherNamesUntouched | core/src/encryption/keychains/keychain.rs:26-39 | a put or delete under one name leaves the item of every other name as it was |
| Keychains.NewKeychain | core/src/encryption/keychains/keychain.rs:58-62 | a new keychain holds no items |
| Keychains.Get | core/src/encryption/keychains/keychain.rs:64-70 | `Keychain::get` succeeds exactly when the backend holds the name and returns its key |
| Keychains.Delete | core/src/encryption/keychains/keychain.rs:72-74 | `Keychain::delete` always succeeds and removes exactly that name |
| Keychains.PutLocal | core/src/encryption/keychains/keychain.rs:76-84 | `Keychain::put_local` succeeds exactly when the name is free; a refusal leaves the keychain unchanged; an accepted key is readable |
| Keychains.ForwardsUnchanged | core/src/encryption/keychains/keychain.rs:64-84 | each wrapper call returns and leaves what the backend call returns and leaves |
| Keychains.ErrorOnDuplicateItem | core/src/encryption/keychains/keychain.rs:100-109 | on a new keychain the first put under a name succeeds and a second put under it fails |

## Left out

- Concurrency and lifecycle are not modelled. This covers `@MainActor`, `dispatchBackground`,
  the `await` points and the background-task assertion in `onBackground`. `RefreshProfiles`
  runs as one sequential step; in the app, other main-actor work may interleave at each `await`.
- File-system, iCloud and device lookups are not modelled: `ensureDbFilePath`, `dbFilePath`,
  `backupDirURL`, `ensureBackupDir`, `dataProtectionAttributes`, `cacheDir`, `deviceId`,
  `deviceName`, `coreArgs`. `ShouldRestoreBackup` takes their results as parameters.
- Calls whose effect lies inside the Rust core are not modelled: `enableBackup`,
  `disableBackup`, `displayBackupPassword`, `fetchLastBackup`, `addEthChain`,
  `changeDappChain`, `listEthChains`, `buildOnStartup`. Their implementation is in the Rust
  core. Only their results enter the model, as parameters.
- `fetchBackupEnabled` is folded into `RefreshProfiles` as `false` when the call fails.
- `PreviewAppCore`, `tabBarColor`, `bannerData`, `callbackModel` and the browser URLs are
  debug stubs and UI state.
- `Profile.fromCore`, `updateFromCore` and the `Profile` class are not part of this model.
  `FromCore` and `UpdateFromCore` assume these copy the snapshot's name and dapps and keep
  the id. Pictures, wallets and timestamps are left out.
- Profiles.FromCore: fills the profile's single `displayName` field from the snapshot's
  `name`. The Swift class also exposes `name` separately, and the sort reads `displayName`.
  The model takes the two to be equal, because the class that defines them is not part of
  this model.
- Text.Lower: folds ASCII letters only. Swift's `lowercased()` uses full Unicode case mapping.
- Text.Less: compares character codes lexicographically. Swift's `String.<` first applies
  Unicode canonical equivalence.
- Sorting.SortByName: is an insertion sort. Swift's `sorted(by:)` may order profiles with
  equal lower-cased names differently. The contracts of `SortByName` and `ProfileList` only
  state what holds for any such order.
- GlobalModel.FetchTopDapps: does not model the `limit` argument or its `UInt32`
  conversion, which traps on out-of-range values. The limit is only passed on to the core.
- GlobalModel.Init: models the trap of `Dictionary(uniqueKeysWithValues:)` as a
  `DuplicateProfileId` failure instead of a crash.
- Keychains.ImplDeleteLocal: never fails. Errors an operating-system backend could report are
  not modelled, since the iOS and in-memory backends are not part of this model.
- Keychains.ImplGet: reports a missing name as `ItemNotFound`. The error the backends
  actually return is defined in the in-memory and iOS keychain modules.
- Keychains.ImplGet: always succeeds for a stored name. The `Result` of the source's `get`
  can also carry backend errors, such as a locked device on iOS; those are not modelled.
- Keychains.ImplPutLocal: succeeds for every free name. Backend failures that the source's
  `Result` can carry are not modelled; only the duplicate-name refusal is.
- Keychains.NewKeychain: models only the non-iOS constructor, which wraps an in-memory
  keychain assumed to start empty. On iOS, `new()` wraps the system keychain, and items
  stored by an earlier launch would still be there.
- `KeyMaterial` byte buffers and the `ArrayLength` length parameter of `get` and `put_local`
  are left out. Key material is an opaque value.
- `core/src/resources.rs` (getters only), `core/src/protocols/mod.rs` (module declarations),
  `ios/SealVaultApp/ProfileRow.swift` (SwiftUI layout) and `ci.py` (build script) hold no
  logic to model.
