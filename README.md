# cit snapshot store, modelled in Dafny

`cit` keeps named snapshots ("versions") of one tracked file. A record per
tracked file lives at `<home>/.cit/files/<sha256 of the canonical path>.cit`.
It holds a map from version name to `{hash, content}`, an optional current
version, and a version counter. A `CitFile` handle loads that record. If
loading fails it marks itself uninitialized. It then runs one of `init`,
`add_version`, `commit`, `switch`, `remove` or `list_versions`.

The project has four modules:

- `Locator` (locator.dfy): the record location as a function of the home
  directory, the canonical path and the digest.
- `Store` (store.dfy): the record, the record file (`Absent`, `Unparseable` or
  `Stored`), the handle together with the two files it touches, and one
  function per command giving its outcome: the new state plus what it reports.
  Each function keeps `Coherent`: the handle holds exactly what a fresh load of
  its record file would give.
- `StoreProperties` (store_properties.dfy): each command's exact effect, the
  record invariant (`RecordInv`: "baseline" is present, the current version is
  set and is a key, `numVersions >= |versions|`), its preservation by every
  command and every sequence of commands, and worked examples.
- `CitFiles` (cit_file.dfy): the `CitFile` class, whose methods change the
  handle's fields and the `DiskFiles` object in place, as the Rust methods do.
  Each method is proved to produce the outcome of the `Store` function of the
  same name.

The SHA-256 digest is a parameter `digest: string -> string`, so every result
holds whatever the digest is. The tracked file is `workingFile`. Saving the
record sets the record file to `Stored(r)`. Every write to disk is appended to
`writes`, so the order of writes can be stated. A panic (an `unwrap` of
`None`, or the count going below zero) is the status `Panicked`, with nothing
written. `FreshFileNeverPanics` shows this never happens to a file whose
record this program created.

The field `num_versions` (src/cit_file.rs:15) reads as the number of versions.
But `add_version` increments it (line 111) even when line 112 overwrites an
existing name. The model follows the code and proves `numVersions >= |versions|`.
That is what keeps the decrement in `remove` from going below zero.
`ReAddOvercounts` shows that equality fails.

## Model

| member | source | states |
|---|---|---|
| `Locator.RecordPath` | src/cit_file.rs:53-65 | the record location is the root directory, then "/", then the path's digest, then ".cit" |
| `Locator.RecordPathDeterminedByDigest` | src/cit_file.rs:53-65 | two paths share a record location exactly when their digests are equal |
| `Locator.RecordPathRecoversDigest` | src/cit_file.rs:63 | the file name of the location, minus ".cit", is the digest of the path |
| `Locator.CitDir` | src/cit_file.rs:58-60 | the root directory is the home directory followed by "/.cit/files" |
| `Locator.GenerateHash` | src/cit_file.rs:126-130 | a version's hash is the same digest string that the record location of an equal path would carry (lines 54-56 and 127-129 hash and format alike); `StoreProperties.HashIgnoresContent` shows it depends on the name only |
| `Store.Load` | src/cit_file.rs:67-71 | loading succeeds exactly when the record file holds a parseable record, and then gives that record |
| `Store.Open` | src/cit_file.rs:29-51 | a new handle is coherent with its disk: it holds the loaded record and is uninitialized exactly when loading failed (`StoreProperties.ReopenCoherent` gives the converse) |
| `Store.Save` | src/cit_file.rs:73-80 | saving leaves the handle and the tracked file alone; with a record it makes the record file load back as that record and adds one record write; without one it does nothing |
| `Store.Init` | src/cit_file.rs:82-99 | init keeps the handle coherent with its record file |
| `Store.AddVersion` | src/cit_file.rs:101-124 | add_version keeps the handle coherent with its record file |
| `Store.Commit` | src/cit_file.rs:152-171 | commit keeps the handle coherent with its record file |
| `Store.Switch` | src/cit_file.rs:173-209 | switch keeps the handle coherent with its record file |
| `Store.Remove` | src/cit_file.rs:211-246 | remove keeps the handle coherent with its record file |
| `StoreProperties.LoadAfterSave` | src/cit_file.rs:67-80 | loading a saved record gives back that record; a save adds exactly one record write and leaves the tracked file alone |
| `StoreProperties.ReopenCoherent` | src/cit_file.rs:29-51 | a coherent handle equals the handle a new run would construct from the same disk |
| `StoreProperties.InitExisting` | src/cit_file.rs:82-86 | when the record file exists, init reports it and changes no field, file or write |
| `StoreProperties.InitFresh` | src/cit_file.rs:88-99 | init on a missing record gives versions {"baseline" -> (digest("baseline"), tracked text)}, current "baseline", count 1, initialized, the record saved (the empty record first, then the final one) |
| `StoreProperties.InitIdempotent` | src/cit_file.rs:82-99 | init twice gives the same state as init once |
| `StoreProperties.UnparseableRecordIsStuck` | src/cit_file.rs:46-48 | a record file that exists but does not parse leaves the handle uninitialized, and every command, including init (line 83), leaves it unchanged |
| `StoreProperties.UninitializedIsNoOp` | src/cit_file.rs:102-105 | on an uninitialized handle, add_version, commit, switch and remove (guards at lines 102, 153, 174, 212) change nothing and write nothing |
| `StoreProperties.AddVersionEffect` | src/cit_file.rs:107-120 | add_version stores (digest(name), tracked text) under name, keeps every other entry, makes name current, counts one more even when name was present, and saves that record |
| `StoreProperties.HashIgnoresContent` | src/cit_file.rs:126-130 | a version's hash depends on its name only, not on the text stored |
| `StoreProperties.CommitEffect` | src/cit_file.rs:158-168 | commit replaces only the current version's text, keeps its hash, the other entries, the current version and the count, and saves; with no current version, or one that is not a key, it changes nothing |
| `StoreProperties.CommitInSyncKeepsRecord` | src/cit_file.rs:162-166 | committing a tracked file that holds the current version's text leaves the record as it was |
| `StoreProperties.SwitchEffect` | src/cit_file.rs:179-206 | switch to a missing name, or with the prompt answered "n", changes nothing; otherwise it sets the current version, keeps the versions and the count, saves the record and only then writes that version's text to the tracked file |
| `StoreProperties.SwitchBackRestoresFile` | src/cit_file.rs:199-206 | switching to another version and back, with no edits in between, restores both the record and the tracked file |
| `StoreProperties.RemoveEffect` | src/cit_file.rs:217-244 | remove refuses, in this order, "baseline", a name that is not a key, and the current version, changing nothing; otherwise it deletes exactly that key, lowers the count by one and saves |
| `StoreProperties.BaselineNeverRemoved` | src/cit_file.rs:218-221 | remove("baseline") never changes the state |
| `StoreProperties.InitKeepsInv` | src/cit_file.rs:90-98 | init keeps the record invariant and never panics |
| `StoreProperties.AddVersionKeepsInv` | src/cit_file.rs:110-120 | add_version keeps the record invariant: the unconditional increment keeps the count at or above the number of entries |
| `StoreProperties.CommitKeepsInv` | src/cit_file.rs:158-168 | commit keeps the record invariant and never panics |
| `StoreProperties.SwitchKeepsInv` | src/cit_file.rs:180-202 | switch only makes an existing key current, so it keeps the record invariant |
| `StoreProperties.RemoveKeepsInv` | src/cit_file.rs:223-241 | under the record invariant, both unwraps succeed and the decrement at line 241 never goes below zero; remove keeps the invariant |
| `StoreProperties.SuccessLeavesInSync` | src/cit_file.rs:98-206 | after a successful init, add_version, commit or switch, the tracked file holds the current version's text |
| `StoreProperties.RunAppend` | src/main.rs:41-62 | running one sequence of runs and then another is the same as running their concatenation, with the statuses concatenated |
| `StoreProperties.RunKeepsInv` | src/cit_file.rs:82-246 | every sequence of commands and edits keeps the invariant and never panics |
| `StoreProperties.FreshFileNeverPanics` | src/cit_file.rs:228-241 | starting from a file with no record, no command sequence panics; the record, once it exists, holds "baseline", a current version that is a key, and a count no smaller than its size |
| `StoreProperties.ReAddOvercounts` | src/cit_file.rs:111-112 | adding "baseline" again after init leaves one version but a count of 2 |
| `StoreProperties.AddSecondVersion` | src/cit_file.rs:101-124 | init on "hello", edit to "world", add "v2": two versions, baseline "hello", v2 "world", current v2 |
| `StoreProperties.SwitchThenRemove` | src/cit_file.rs:173-244 | from there, removing the current v2 is refused; after switching to baseline the tracked file is "hello" and removing v2 succeeds and lowers the count by one |
| `CitFiles.CitFile.constructor` | src/cit_file.rs:29-51 | the handle locates its record by the path's digest, loads it, and is uninitialized exactly when loading fails |
| `CitFiles.CitFile.SaveCitFile` | src/cit_file.rs:73-80 | writes the in-memory record to the record file when there is one, and does nothing otherwise |
| `CitFiles.CitFile.Init` | src/cit_file.rs:82-99 | the in-place init produces the state and status of `Store.Init` |
| `CitFiles.CitFile.AddVersion` | src/cit_file.rs:101-124 | the in-place add_version produces the state and status of `Store.AddVersion` |
| `CitFiles.CitFile.Commit` | src/cit_file.rs:152-171 | the in-place commit produces the state and status of `Store.Commit` |
| `CitFiles.CitFile.Switch` | src/cit_file.rs:173-209 | the in-place switch produces the state and status of `Store.Switch` |
| `CitFiles.CitFile.Remove` | src/cit_file.rs:211-246 | the in-place remove produces the state and status of `Store.Remove` |
| `CitFiles.CitFile.ListVersions` | src/cit_file.rs:132-150 | reports "not initialized" on an uninitialized handle; otherwise gives the count and one line per version, each name exactly once, with its hash, and the marker exactly on the current version |

## Left out

- Console output: each message is a `Status` value, and the listing is returned as lines. The file's display name (src/cit_file.rs:32-35) is used only in messages, so it is not modelled.
- `canonicalize`, `home_dir` and `create_dir_all` (src/cit_file.rs:30-31, 58-61): the canonical path and the home directory are parameters. The directory is assumed to exist.
- Failed reads and writes of the tracked file or the record (the `expect` calls at src/cit_file.rs:77-78, 107-108, 162-163, 205-206) are not modelled: every read and write succeeds.
- `Locator.RecordPath`: the path stands for the lossy UTF-8 form of the canonical path (src/cit_file.rs:55). Two paths that differ only in bytes that are not valid UTF-8 have the same lossy form, so they share a record. The model does not capture this.
- SHA-256 and its lower-case hex form (src/cit_file.rs:54-56, 127-129): the digest is a parameter, and nothing depends on which function it is.
- YAML serialisation (src/cit_file.rs:69, 77): a saved record reloads as itself (`Stored(r)`). A file that does not parse is `Unparseable`.
- `CitFiles.CitFile.Switch`: `answer` stands for the line read from standard input after `trim()` (src/cit_file.rs:192-194). Unicode whitespace trimming and the `unwrap` on a failed read are not modelled.
- `list_versions` prints in HashMap order. `ListVersions` picks versions in an unspecified order. Its contract allows any order.
- `clear` (src/cit_file.rs:248-251) only prints a placeholder, so it is not modelled.
- src/main.rs is not part of this model: it parses arguments and calls one method, always passing `false` for the switch prompt. `StoreProperties.Command` and `Run` model a series of such runs. Between runs the user may edit the tracked file. `ReopenCoherent` shows that reloading between runs changes nothing.
- The `usize` counter is a `nat`. An overflow of `+= 1` (src/cit_file.rs:111) would need 2^64 additions, so it is not modelled. The decrement at line 241 is modelled as a panic (overflow-checked build) when the count is 0. A release build would wrap instead. Either way `RemoveKeepsInv` shows the case cannot arise.
- Crashes between the two writes of `switch`, and concurrent runs on one file. Each command is atomic in the model. The order of its writes is recorded in `writes`.
