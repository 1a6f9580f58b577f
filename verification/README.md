# Ghost FTP: verified models

A Dafny model of the parts of Ghost FTP (https://github.com/bren-wp/Host-FTP) where order, layout and failure matter,
with proofs of what those parts promise. `dafny verify dfyconfig.toml` checks the whole project.

Code that changes state step by step is modelled by methods and classes with the same steps; what the steps achieve is
stated by their contracts and by lemmas about the specification functions. Operations that the environment can make fail
do fail at any time in the model, unless a flag such as `writesWork`, `calm`, `works` or `reliable` excludes it.

| file | models |
|---|---|
| `ResourceSection.dfy`, `VersionInfo.dfy`, `Ico.dfy`, `PatchPe.dfy` | the PE resource writer: directory tree in two passes, nested version blocks, ICO files, the splice into an image; each with an independent reader |
| `StateStore.dfy` | the two-generation state store over a directory whose unsynced renames and contents may be lost in a crash |
| `Settings.dfy` | normalisation, migration and validation of settings, and the cached settings store |
| `Profiles.dfy`, `ProfileStore.dfy` | which stored secret belongs to which account; the one-time migration of the legacy profile file |
| `TreePlan.dfy`, `PrepareDirs.dfy`, `RemoteDirs.dfy` | planning a folder download, creating its local directories, ensuring remote directories through a cache |
| `InstallerFile.dfy`, `InstallerRegistry.dfy` | the installer transaction: file backup, swap and rollback; registry snapshot, registration and restore |
| `RemoteEdit.dfy` | optimistic editing of remote text files |
| `WordWrap.dfy`, `History.dfy` | greedy word wrap; back and forward with deferred navigation |
| `Bytes.dfy`, `Sorting.dfy`, `Unicode.dfy`, `Wrappers.dfy` | little-endian fields, padding and buffers; stable sorting; white space; results |

## What the proofs found

- **State store, demotion.** `Write` keeps the current generation when it is valid JSON, `Read` needs it to decode.
  `StateStore.Store.Write` proves for every starting directory without unsynced contents, and every crash point, that a
  write on a working directory is atomic if and only if it does not put a valid but undecodable generation over one that
  decodes (`Demotes`). `DemotionHappens` gives such a directory.
- **State store, size limit.** The size is checked before the newline is appended. `ReadYourWrite` proves that a write
  is read back if and only if its encoding is strictly shorter than the limit or the generation behind it happens to
  hold the same value; `ActivationAtLimit` says when a write at the limit is atomic all the same.
- **Profile migration.** Whatever fails, `ProfileStore.ProfileFile.Load` returns as ghost results what it saw of the
  legacy file and the randomness it sealed with. For these, `RecoversExactly` gives the exact condition at every crash
  point: the list is recovered if and only if the load saw that list and its envelope is strictly below the limit, or
  nothing of its effect is there yet. An envelope over the limit is refused before anything changes. One exactly at the
  limit passes the store's check but cannot be read back, and the legacy file is removed. `Read` treats a failed read
  like a missing file: when both reads of the legacy file fail, `load` removes the list (`MisreadErases`); when only the
  current generation fails to read, the older list replaces it (`OlderReplaces`).
- **Unreadable settings.** When reading fails, `Get` returns settings that overwrite without a backup and delete without
  a question (`ZeroMeans`); only `Effective` turns them into the defaults.
- **Blank key paths.** Whatever the rules, a passphrase sent with a key path of white space is stored, although that
  path matches no key, not even itself (`BlankKeyHoldsPassphrase`; `BlankKeyIsAccepted` gives a request).
  `PassphraseFollowsKey` proves the key binding exactly for paths that are not blank.
- **Installer, unrecorded swap.** If the directory check right after the swap fails, activation is not recorded and the
  rollback reports success with the new file in place (`missed` in `InstallerFile.Run`); in every other run a rollback
  that reports success has restored the target. If only the read that records the installed file fails (`lost`), the
  rollback refuses and says so.
- **Installer, outside the snapshot.** `InstallDate` and `EstimatedSize` keep what the run wrote, and on a fresh install
  the App Paths key is deleted unless it has subkeys. `InstallerRegistry.Rollback` proves that every other cell regains
  its exact prior presence and value, and that the App Paths default value does if and only if the key is not deleted or
  there was no such value.
- **History.** A completed back and forward within one pane restores the back stack, and the forward stack if and only
  if it was below its limit; it restores the current path if and only if the normal form of that path is stable
  (`BackThenForward`). Normal forms need not be: cleaning `./ x` gives ` x`, which trimming changes again. A path is
  normalised twice before it goes on a stack, so a stack holds only normal forms exactly as long as two rounds are
  enough (`CompletedIsGood`, `StaysSteady`); for `./ ./ x` they are not (`UnstableHappens`).

## Model

| member | source | states |
|---|---|---|
| ResourceSection.BuildResourceSection | scripts/pe_resources.py:200-227 | a reader that follows the high bit, the entries and the RVAs gets exactly the input, sorted, each payload under its type, id and language 0x0409; success exactly when entry counts, ids, payload addresses and payload lengths fit their fields |
| ResourceSection.MakeResourceTree | scripts/pe_resources.py:173-181 | the mutable tree has the shape of the sorted table, three levels deep, and no node or leaf occurs twice |
| ResourceSection.WalkNodes | scripts/pe_resources.py:184-197 | directories and leaves in depth-first order |
| ResourceSection.AssignOffsets | scripts/pe_resources.py:203-215 | every table, data entry and payload gets its place in the layout |
| ResourceSection.WriteTables | scripts/pe_resources.py:217-223 | the table bytes point where the layout put the children; earlier writes stay |
| ResourceSection.WriteLeaves | scripts/pe_resources.py:224-226 | data entries and payloads land at their places and disturb nothing |
| ResourceSection.IntervalsAreDisjoint | scripts/pe_resources.py:203-215 | all tables, data entries and payloads are pairwise disjoint, 4-aligned, and inside the section |
| ResourceSection.TreeFilesTheTable | scripts/pe_resources.py:173-181 | under each type and id the tree files exactly what the input does, in input order for equal keys |
| ResourceSection.TableLookup | scripts/pe_resources.py:173-181 | looking a resource up by type, id and language finds the first payload the table files there under 0x0409, and nothing else |
| ResourceSection.TreeAscends | scripts/pe_resources.py:173-181 | types ascend, and under every type the ids do |
| ResourceSection.DirectoryEndIs | scripts/pe_resources.py:203-211 | how large the directory part can get for a given table |
| Sorting.SortIsStable | scripts/pe_resources.py:175-177 | sorting by key keeps the order of equal keys and loses nothing |
| Bytes.LittleEndian | scripts/pe_resources.py:217-226 | every field is read with its lowest byte first |
| VersionInfo.MakeStringBlock | scripts/pe_resources.py:38-45 | the bytes of a text block, and overflow exactly when they do not fit 16 bits |
| VersionInfo.MakeContainerBlock | scripts/pe_resources.py:48-59 | the bytes of a container block around its children |
| VersionInfo.ReadsBack | scripts/pe_resources.py:38-59 | parsing any nested blocks gives back keys, values and child order at every depth, with padding counted from the block or from the buffer |
| VersionInfo.EmitLength | scripts/pe_resources.py:44-58 | each block's length field is its byte length |
| VersionInfo.MakeVersionInfo | scripts/pe_resources.py:62-102 | the version resource is the emitted version tree, and fails exactly when some length overflows |
| VersionInfo.VersionInfoReadsBack | scripts/pe_resources.py:62-102 | wherever it stands 4-aligned, the version resource reads back as its tree, and tells a reader what `VersionTreeSays` says |
| VersionInfo.VersionTreeSays | scripts/pe_resources.py:62-102 | found by their keys: the signature and the version numbers in the fixed part, the nine texts of the role under US English with the version as a dotted numeral, language 0x0409 and code page 1200 |
| VersionInfo.TextRecovered | scripts/pe_resources.py:34-45 | the text of a value is recovered from its bytes |
| Ico.ParseIco | scripts/pe_resources.py:140-157 | accepts exactly the well-formed files, returns the bytes each entry names, and lists them with consecutive ids |
| Ico.WellFormedMeans | scripts/pe_resources.py:140-157 | accepted are icons of 1 to 64 images whose ids fit and whose every entry points inside the file |
| Ico.IcoBytes | scripts/generate_brand_assets.py:222-235 | every image lies where its directory entry says, and the entry states its sides (zero for 256), one plane and 32 bits; success exactly when every length and offset fits |
| Ico.ParsingInvertsWriting | scripts/generate_brand_assets.py:222-235 | parsing what the writer wrote succeeds and returns the same images |
| PatchPe.HeadersMean | scripts/pe_resources.py:239-266 | the headers are read exactly from an image with both signatures and one of three machines with its magic, each field from its place; the data directories begin at 112 or 96 |
| PatchPe.LastSectionEnd | scripts/pe_resources.py:267-271 | the greatest section end, by the larger of both sizes; fails exactly on a truncated table |
| PatchPe.MaxEndIsLeast | scripts/pe_resources.py:267-271 | an address is above every section exactly when it is not below the greatest end |
| PatchPe.CollectIcons | scripts/pe_resources.py:273-283 | icon ids across both groups are exactly 1 to n+m; each group has its header and names only its own images |
| PatchPe.TableEmbeds | scripts/pe_resources.py:273-289 | what a reader of the tree finds by type, id and 0x0409: the version block under 16/1, the manifest under 24/1, the groups under 14/1 and 14/2, each image under 3 with the id its group names, and no further icon or group |
| PatchPe.EmbeddedVersionSays | scripts/pe_resources.py:284-289 | a reader of the version block found there learns the version, role and file name that went in |
| PatchPe.ExtendWithSection | scripts/pe_resources.py:291-296 | the file grows by aligned padding, the section and aligned padding; old bytes stay |
| PatchPe.PatchesLand | scripts/pe_resources.py:297-306 | every header patch lands, none disturbs another, every other byte stays |
| PatchPe.PatchesNeedFit | scripts/pe_resources.py:298-306 | on roomy headers only a number too large for its field stops the patches |
| PatchPe.SoundMeans | scripts/pe_resources.py:250-266 | which images with readable headers the exact promises cover |
| PatchPe.PatchedReads | scripts/pe_resources.py:297-306 | a reader of the patched image arrives at the section's bytes |
| PatchPe.SpliceSection | scripts/pe_resources.py:291-306 | placement, no further up than alignment needs; coverage by SizeOfImage; the new header with its name and characteristics; nothing else moved; on sound images success exactly when every number fits its field |
| PatchPe.BuildResources | scripts/pe_resources.py:273-290 | the section reads back as a tree in which every lookup finds icons, groups, version and manifest as `TableEmbeds` says; success exactly when the inputs parse and fit |
| PatchPe.PatchPe | scripts/pe_resources.py:230-307 | the section is aligned, right above every old section and behind every old byte; only the new slot and the patched fields change; on roomy headers a reader of the result finds by type, id and language the version block, the manifest of the image's machine, the groups and their images; on a sound image with buildable resources success exactly when the resources and every number fit their fields |
| StateStore.CurrentStage | internal/config/store.go:336-340 | renaming the new generation over the current one is atomic below the limit or with the old value behind it |
| StateStore.PreviousStage | internal/config/store.go:326-333 | renaming the copy over the previous generation is atomic unless it demotes |
| StateStore.DemotionShows | internal/config/store.go:326-333 | a demotion lets a crash expose the fallback |
| StateStore.StateDir.WriteSyncedTemp | internal/config/store.go:238-265 | a complete synced temporary file or none, whatever fails; no generation changes |
| StateStore.StateDir.ReplaceSynced | internal/config/store.go:267-276 | rename, then sync: the stages a crash can see |
| StateStore.Store.EnsureDirectoryIdentity | internal/config/store.go:61-83 | binds once; a removed, replaced or redirected directory fails closed |
| StateStore.StateNameStaysInside | internal/config/store.go:85-93 | a state name is accepted exactly when, from any directory, it leads to the entry of that name in it |
| StateStore.Store.ReadBoundState | internal/config/store.go:121-133 | the bytes of a regular file within the limit, in the bound directory |
| StateStore.Store.Read | internal/config/store.go:135-166 | the current generation if it decodes, else the previous one, else the fallback; never a mixture |
| StateStore.Store.KeepExisting | internal/config/store.go:326-335 | the first half of a write, at every crash point |
| StateStore.Store.Write | internal/config/store.go:304-341 | what the directory holds at every crash point and afterwards: each file is whole and old or whole and new, other states stay; when it succeeds; atomic exactly when nothing is demoted |
| StateStore.CrashDuringWrite | internal/config/store.go:304-341 | after a crash a read returns the complete new value or what it could have returned after a crash before the write; when everything was synced, the old reading |
| StateStore.ReadYourWrite | internal/config/store.go:317-320 | a write is read back exactly when it is strictly below the limit or the generation behind agrees |
| StateStore.ActivationAtLimit | internal/config/store.go:199-224 | when a write exactly at the limit is atomic |
| StateStore.LastTwoGenerations | internal/config/store.go:304-341 | after a run of writes current is the last value and previous the one before |
| StateStore.DemotionHappens | internal/config/store.go:326-333 | a directory on which a write is not atomic |
| Settings.FixedPointsAreCanonical | internal/config/settings.go:121-145 | normalisation leaves exactly the canonical settings alone |
| Settings.NormalizationIsCanonical | internal/config/settings.go:121-145 | normalisation always gives canonical settings and is idempotent |
| Settings.NormalizationMeans | internal/config/settings.go:88-145 | what any settings on disk amount to, field by field: what is out of range gets its default, an older file the policy its flags meant, an unknown policy the cautious one |
| Settings.ZeroMeans | internal/config/settings.go:178-192 | what `Get` returns when nothing could be read |
| Settings.DefaultsMean | internal/config/settings.go:46-60 | the defaults, and that they are canonical |
| Settings.MigrationIsConservative | internal/config/settings.go:88-119 | migration ends in overwriting without backup only if the file itself asked for it |
| Settings.AcceptedExactly | internal/config/settings.go:147-176 | a request is accepted exactly when, apart from what it omits, every field is in range |
| Settings.AcceptedIsCanonical | internal/config/settings.go:208-243 | what `Set` accepts it stores in canonical form, keeping explicit valid choices |
| Settings.SettingsStore.Get | internal/config/settings.go:178-192 | canonical settings, cached, agreeing with the disk; when reading fails, settings that overwrite without a backup |
| Settings.SettingsStore.Effective | internal/config/settings.go:197-206 | the settings, or when reading fails the defaults |
| Settings.SettingsStore.Set | internal/config/settings.go:208-243 | accepted exactly when valid and storable; stored value and cache; a refusal changes nothing |
| Settings.SetIsFresh | internal/config/settings.go:178-243 | a fresh `Get` returns exactly what was set strictly below the limit, else what is behind it |
| Profiles.Profiles.Save | internal/config/profiles.go:188-328 | accepted exactly when valid; the list; the new profile field by field as in `Edit`; what the user gets to see; the entitlement of every stored secret |
| Profiles.Profiles.Edit | internal/config/profiles.go:217-318 | the start path: empty, or the old one under another endpoint or username, gives way to "." for SFTP and "/" otherwise, any other is stored as requested; password, passphrase and pin kept for the same account, key and SFTP endpoint only; the stored profile is in order |
| Profiles.StoredAsAsked | internal/config/profiles.go:217-318 | what a save promises about kinds of secrets gives these fields |
| Profiles.AcceptedExactly | internal/config/profiles.go:237-311 | which requests are accepted, field by field |
| Profiles.Profiles.Remove | internal/config/profiles.go:330-350 | cuts exactly this profile out of the list and ends its entitlements |
| Profiles.Profiles.UpdateFingerprint | internal/config/profiles.go:352-372 | replaces the pin of an SFTP profile only |
| Profiles.SavedKind | internal/config/profiles.go:264-318 | one save keeps a profile holding exactly what its history entitles it to |
| Profiles.PasswordFollowsAccount | internal/config/profiles.go:264-266 | after any run a stored password was supplied for a matching account and kept by every later request |
| Profiles.PassphraseFollowsKey | internal/config/profiles.go:267-269 | after any run a stored passphrase was supplied for a matching account, and for a matching key exactly unless the path is blank |
| Profiles.PinFollowsEndpoint | internal/config/profiles.go:275-284 | after any run a pin was given by the user for a matching endpoint |
| Profiles.KeptSecretsRemain | internal/config/profiles.go:188-328 | no secret is dropped that every later request kept |
| Profiles.BlankKeyHoldsPassphrase | internal/config/profiles.go:286-313 | under any rules, a passphrase sent with a blank key path is stored with it, and no account matches that key |
| Profiles.BlankKeyIsAccepted | internal/config/profiles.go:188-216 | an acceptable request of this kind and the profile it leaves |
| ProfileStore.ProfileFile.LoadSecure | internal/config/profiles.go:41-79 | the secure list, absence only when no generation is there, or an error |
| ProfileStore.SecureReadingMeans | internal/config/profiles.go:41-71 | a list is found only in an envelope of version 1 whose seal opens to it, and taken for absent only without either generation |
| ProfileStore.ProfileFile.SaveAll | internal/config/profiles.go:106-125 | the durable envelope before any legacy file is removed; an envelope over the limit changes nothing |
| ProfileStore.ProfileFile.Load | internal/config/profiles.go:81-98 | what is loaded; of a list waiting to be migrated, exactly which crash points recover it, whatever fails; when nothing fails, all of them unless the envelope is exactly at the limit |
| ProfileStore.RecoversExactly | internal/config/profiles.go:81-104 | at any crash point of any load, the list is recovered exactly when the load saw it and sealed it below the limit, or has not taken effect |
| ProfileStore.KeptRecovers | internal/config/profiles.go:91-98 | before the envelope shows the legacy list is found, afterwards the envelope is |
| ProfileStore.ShownLoses | internal/config/profiles.go:106-125 | as soon as an envelope shows that is at the limit or holds another list, some crash loses the list |
| ProfileStore.ErasedRecovers | internal/config/profiles.go:95-104 | after removals without a new file the list is recovered exactly when it can still be read |
| ProfileStore.MisreadErases | internal/config/profiles.go:87-96 | two failed reads of the legacy file lose its list |
| ProfileStore.OlderReplaces | internal/config/profiles.go:87-96 | one failed read of the current generation replaces the list by the older one |
| ProfileStore.StartRecovers | internal/config/profiles.go:81-98 | before its first step a load has lost nothing, however long the list |
| ProfileStore.EnvelopeReadsBack | internal/config/store.go:317-320 | an envelope is read back exactly when it is strictly below the limit |
| TreePlan.BuildDownloadPlan | internal/api/tree_transfer.go:153-195 | for any answers of the server, at most 10000 listings; success exactly when the answers describe a tree within the limits; then the plan is that tree's: it takes every listed directory and file, counts every listed symbolic link, and keeps the order of the walk |
| TreePlan.Planner.Walk | internal/api/tree_transfer.go:156-193 | terminates on endless listings, with a plan or a proof that no tree of these answers fits; counts exactly the symbolic links in the answers |
| TreePlan.FitsIsWithinLimits | internal/api/tree_transfer.go:36-43 | the checks along the walk amount to safe names, depth 64 and 10000 items |
| TreePlan.SameTree | internal/api/tree_transfer.go:163-193 | the server's answers determine the tree |
| TreePlan.TreeCounts | internal/api/tree_transfer.go:167-191 | links, directories and files of a tree are as many as its answers list |
| TreePlan.PlanIsInOrder | internal/api/tree_transfer.go:156-193 | directories and files stand in the order of a walk, each way once: earlier in a listing first, a directory before what is below it |
| TreePlan.DirsAreExactly | internal/api/tree_transfer.go:177-186 | the planned directories are exactly those the tree leads to |
| TreePlan.FilesAreExactly | internal/api/tree_transfer.go:187-191 | the planned transfers are exactly the files the tree leads to |
| TreePlan.WayWithinHeight | internal/api/tree_transfer.go:156-163 | a way to a directory passes at most as many names as the tree has levels, a way to a file one more |
| TreePlan.PlanIsShallow | internal/api/tree_transfer.go:156-187 | no planned directory lies more than 64 levels below the root, and no file more than 65 |
| TreePlan.FilesArePaired | internal/api/tree_transfer.go:172-187 | both sides of a transfer are the same place below their roots |
| PrepareDirs.PlanIsOrdered | internal/api/tree_transfer.go:177-186 | every directory is listed after its parent |
| PrepareDirs.ParentsFirstMeans | internal/api/tree_transfer.go:298-313 | in such a list the directory right above each one is known or stands before it |
| PrepareDirs.Prepare | internal/api/tree_transfer.go:238-339 | creates only missing planned directories; each failure only for its reason: outside the boundary, a name with NUL or a line break, out of order, taken by something else; on a working disk with clean names and no conflicts success exactly on lists in order; all handles closed on failure |
| PrepareDirs.PlansAreInOrder | internal/api/tree_transfer.go:298-313 | a download plan never reaches the order failure |
| PrepareDirs.PlansAreClean | internal/api/tree_transfer.go:238-249 | nor the refusal of a name, when the planner's name check admits no NUL or line break |
| RemoteDirs.RemoteDirectoryEntry | internal/api/tree_transfer.go:345-372 | a real directory, nothing, or why not |
| RemoteDirs.EnsureCached | internal/api/tree_transfer.go:374-426 | whatever is known, the outcome and the tree of ensuring without a cache; what is known stays real and closed under parents |
| RemoteDirs.EnsureRemoteDirectory | internal/api/tree_transfer.go:341-343 | the same outcome and tree from an empty cache, and what the outcome says about the way |
| RemoteDirs.EnsureAll | internal/api/tree_transfer.go:139-144 | a whole list through one cache is ensuring each directory on its own |
| RemoteDirs.EnsuredMeansWholeWay | internal/api/tree_transfer.go:384-425 | success exactly when every name on the way is a directory, or missing and made as one, below a directory that can be listed |
| RemoteDirs.EnsuredExplains | internal/api/tree_transfer.go:345-426 | after success real directories all the way; each failure names a link, a file, a missing name or a directory that cannot be listed |
| RemoteDirs.OnlyMissingAreMade | internal/api/tree_transfer.go:397-425 | only missing names on the way appear |
| InstallerFile.BackupExisting | cmd/installer/transaction.go:144-287 | a verified copy of the target, a note that there is none, or nothing changed |
| InstallerFile.StageVerified | cmd/installer/main.go:181-224 | a new file holding exactly the payload, or nothing |
| InstallerFile.FileBackup.InstallFile | cmd/installer/main.go:262-288 | swaps only over the very object that was backed up, unchanged in stamp, size and content, and records what it installed |
| InstallerFile.FileBackup.RecordActivated | cmd/installer/transaction.go:329-358 | activation is marked before verification; what is recorded is what is there |
| InstallerFile.FileBackup.StageRollbackBackup | cmd/installer/transaction.go:408-472 | a verified copy of the backup, or nothing left behind |
| InstallerFile.FileBackup.Rollback | cmd/installer/transaction.go:474-527 | success means the original is back, from the unchanged backup; a target of another identity or content than the recorded one is left alone with an error; on a working machine it succeeds |
| InstallerFile.FileBackup.Cleanup | cmd/installer/transaction.go:533-544 | removes the backup |
| InstallerFile.Run | cmd/installer/main.go:380-470 | after a failed run the target is byte-identical or absent as before, with no temporary file or backup left; exactly when not |
| InstallerRegistry.Capture | cmd/installer/registry_snapshot.go:67-95 | the snapshot shows every tracked cell and protocol key; on a working registry it is taken exactly when every tracked value is of its type |
| InstallerRegistry.SnapshotKnowsKeys | cmd/installer/registry_snapshot.go:106-115 | which protocol keys existed; any other key counts as existing |
| InstallerRegistry.ProtocolKeysToRemove | cmd/installer/registry_snapshot.go:117-132 | exactly the protocol keys that were absent, children first |
| InstallerRegistry.RemoveKeys | cmd/installer/registry_snapshot.go:162-166 | removal never meets a key that still has a subkey |
| InstallerRegistry.Restore | cmd/installer/registry_snapshot.go:134-168 | every tracked cell regains its value or absence; keys that existed survive |
| InstallerRegistry.Register | cmd/installer/uninstall_registration_windows.go:18-73 | whatever fails, some prefix of the writes took effect; none of the second group when the installed file cannot be measured; on a working registry success exactly when it can be and the path is not blank and has no quote, line break or NUL; then every value stands where Windows looks for it |
| InstallerRegistry.AllIsRegistered | cmd/installer/uninstall_registration_windows.go:32-68 | the value in every cell after all writes, whatever was there before |
| InstallerRegistry.PathIsOneArgument | cmd/installer/protocol_registration.go:19-24 | the quoted path is read back as one argument exactly when it holds no quote |
| InstallerRegistry.RunGroups | cmd/installer/protocol_registration.go:26-48 | the three groups of writes in order; a group whose contents cannot be found out is not attempted |
| InstallerRegistry.Rollback | cmd/installer/main.go:404-427 | which cells and keys come back, and exactly which do not |
| InstallerRegistry.Run | cmd/installer/main.go:389-468 | the registry over a whole run, from any prior state and any failing prefix |
| RemoteEdit.ValidateText | internal/api/remote_edit.go:138-151 | at most 4 MiB of UTF-8 without NUL |
| RemoteEdit.Session.Open | internal/api/remote_edit.go:276-302 | path, content, size, permissions and the revision of the content, exactly when editable |
| RemoteEdit.Session.Save | internal/api/remote_edit.go:304-361 | the file changes only if its content had the expected revision; a conflict changes nothing; success means the read-back equals the text, which the document returned holds, and the mode is kept |
| RemoteEdit.Workbench.Open | internal/api/remote_edit.go:276-302 | the document as the file is, remembered as handed out |
| RemoteEdit.Workbench.Save | internal/api/remote_edit.go:304-361 | over any run every change was made by someone who had seen the version before it; the document handed out holds the text |
| RemoteEdit.NoLostUpdate | internal/api/remote_edit.go:314-320 | every document handed out held a version of its file, and whoever made a change with its revision had been shown exactly the text it replaced |
| RemoteEdit.SecondSaverConflicts | internal/api/remote_edit.go:318-320 | of two editors of one text the second cannot save over the first |
| WordWrap.WrapForUI | internal/desktop/linux_info_overlay.go:51-95 | lines are not empty and at most as long as asked, or 8 below that; the text is kept but for white space; no arrangement of the words, over-long ones in pieces of full lines, has fewer lines |
| WordWrap.GreedyStep | internal/desktop/linux_info_overlay.go:78-89 | adding a word the greedy way stays ahead of every arrangement |
| WordWrap.FieldsKeepText | internal/desktop/linux_info_overlay.go:59 | the words are the text without its white space |
| WordWrap.CutWord | internal/desktop/linux_info_overlay.go:64-77 | an over-long word becomes full lines and a rest, and the lead over all arrangements stays |
| WordWrap.PiecesMakeWord | internal/desktop/linux_info_overlay.go:69-77 | the pieces make up the word, and all but the last fill a line |
| WordWrap.JoinSeparates | internal/desktop/linux_info_overlay.go:78-81 | the words of a line can be told apart again, with one space between them |
| History.AppendIsGood | internal/desktop/linux_master_rail.go:118-131 | a stack stays within 64 normalised entries without empty paths or equal neighbours exactly when the entry is skipped or its normal form is stable |
| History.NormalizeMeans | internal/desktop/linux_master_rail.go:98-110 | which cleaner normalises which pane, and what blank paths become |
| History.CompletedIsGood | internal/desktop/linux_master_rail.go:148-184 | the exact condition under which a completed navigation keeps both stacks so |
| History.CompletedCompletes | internal/desktop/linux_master_rail.go:148-184 | to the same place no stack changes; a new navigation files the place it leaves under back and ends forward; a step takes its target off its stack and files the place it leaves on the other |
| History.StaysSteady | internal/desktop/linux_master_rail.go:148-184 | listings keep both stacks so exactly as long as the current paths are stable when filed |
| History.UnstableHappens | internal/desktop/linux_master_rail.go:98-109 | a path that two rounds of normalising do not settle |
| History.Desktop.Complete | internal/desktop/linux_master_rail.go:148-184 | the new state of a completed navigation or step |
| History.Desktop.Navigate | internal/desktop/linux_master_rail.go:193-210 | a step only asks, exactly when idle, with a target, and connected if that is remote; the stacks wait for the listing |
| History.Desktop.HandleError | internal/desktop/gui_linux.go:1063-1067 | a failed step changes neither stack |
| History.Desktop.HandleListing | internal/desktop/gui_linux.go:1092-1103 | completion, in full, and then the current path; when the stacks stay good |
| History.StaysOnePane | internal/desktop/linux_master_rail.go:148-184 | within one pane neither stack ever begins with the current path, exactly as long as new paths are stable when filed |
| History.BackThenForward | internal/desktop/linux_master_rail.go:148-210 | back and forward ends at the path as filed; exactly when the current path and both stacks are restored |

## Left out

- StateStore.Store.Write: exact atomicity is stated for a directory where no operation fails; where operations may fail, atomicity is promised below the size limit and without a demotion.
- StateStore.Store.Read: the fallback is returned as it is instead of being passed through JSON; a state named `x.previous` is taken for a different file than the previous generation of `x`.
- Profiles.Profiles.Save: the random identifier is a parameter that is not in use; the list is a field, loading and storing it are in `ProfileStore.dfy`.
- History.BackThenForward: trimming and cleaning are parameters without laws; only `UnstableHappens` fixes them, as far as blanks and leading `./` go.
- RemoteDirs.EnsureCached: the server decides the same way each time it is asked to list or make the same directory; paths are already cleaned.
- InstallerRegistry.Rollback: removal of shortcuts on a fresh install is file work outside this model; names compare by case.
- InstallerFile.Run: digests stand for contents; file modes are not modelled; a check and the action after it are one step.
- Concurrent writers during one operation: each operation runs alone, except that an installer rollback starts from any state of the directory.
- JSON, UTF-8, base64, AES-GCM, DPAPI and SHA-256: codecs that invert, and digests that do not collide, given as parameters. JSON replaces invalid UTF-8, which the codec laws exclude.
- Version strings are sequences of UTF-16 code units; the manifest text of `make_manifest` is a parameter of `PatchPe`.
- `make_resource_tree` appends to the entries of a node it already made; the model makes a node when its entries are complete.
- `buildUploadPlan`, transfer reservations, `addTree`: no order or limit that the download side does not already have.
- Remote listings in `RemoteEdit.dfy` are single look-ups; the loop over a listing is in `RemoteDirs.dfy`.
- Pixel drawing, PNG, PE parsing beyond the fields `patch_pe` reads, the updater, sockets, dialogs and painting.
- The Windows history variant, edits of the path fields, column layout, and all locale tables and audit scripts.
