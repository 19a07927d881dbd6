# h2mm resource indexing, modelled in Dafny

h2mm is a mod manager for a game that loads patch files from its `data`
directory. A mod *unit* is a single target file. It is either a file with no
extension or a file whose extension starts with `.patch_`. Up to two sidecars
may sit beside it: `<target>.gpu_resources` and `<target>.stream`.

A unit lives in one of two places:

- a plain directory;
- a folder inside a zip or rar archive.

Resource folders are directory trees configured by the user. h2mm scans them
for units. Each unit is hashed over the target and its present sidecars, in
that order. h2mm keeps three indexes:

- the **resource index**: content hash to the list of path references where
  that content was found;
- the **manifest index**: content hash to the unit's parsed `manifest.json`;
- the **install index**: content hash to the patch file installed in the
  game's data directory.

This project models the indexing engine:

- choosing a unit's target;
- listing the entries of one archive folder;
- hashing in 8192-byte chunks;
- the memo cache keyed on a path's modification time;
- the meta of a directory or archive unit, and the dispatch on a candidate's
  shape;
- the recursive scan of a resource folder and of the archives in it;
- the path-reference record and the configuration record;
- every index-changing operation of the manager class:
  - rebuilding the install index;
  - the start-up staleness checks;
  - adding a resource folder;
  - rescanning a resource folder;
  - pruning a group's references;
  - adding a single resource;
  - listing installed mods;
- the CJK-aware text wrapper used for the listing.

## How the model is organised

The file system, the archives, the JSON parser and the SHA-256 digest are one
immutable value, `Environment.Env`. Every operation reads it. A Python
exception becomes the `Err` side of `Wrappers.Result`, named by `Exc`. Where
the Python code works by mutation, the model is imperative:

- the hasher (`Hashing.Hasher`);
- the memo cache (`MtimeCache.Cache`);
- the manager (`Manager.H2MM`).

Each method of those classes is proved equal to a specification function
(`...Spec`, `PassFold`, `ResourceCheckFrom`, `WrapLines`). The properties the
program promises are then proved about those functions as lemmas.

Loops become `while`/`for` loops with invariants:

- the chunked reads;
- the target collection;
- the archive-folder filter;
- the scan loops;
- the pass over candidates;
- the prune loop;
- the resource check;
- the wrapper.

Their specification functions are folds from the back, so each invariant reads
"the state so far is the fold of the prefix seen so far".

Modules follow the Python files:

| Python | Dafny modules |
|---|---|
| `model.py` | `Model` |
| `etc.py` | `MtimeCache` |
| `utils.py` | `Selection`, `Hashing`, `Meta`, `Scanner`, `TextWrap` |
| `mgr.py` | `Manager` |

Shared helpers:

- `Wrappers`: Option and Result;
- `PyStr`: string methods;
- `PyPath`: POSIX `os.path`;
- `Seqs`: filters and subsequences;
- `Environment`: the environment value.

## Model

| member | source | states |
|---|---|---|
| Model.NormaliseProperties | src/h2mm/model.py:14-17 | A normalised string has no backslash. Normalising twice is normalising once. Every character that was not a backslash stays where it was. |
| Model.MakePathRef | src/h2mm/model.py:8-17 | Constructing an `H2PathRef` stores exactly the normalised form of each of its three fields. Each has no backslash left and keeps its length. |
| Model.Name | src/h2mm/model.py:19-21 | The `name` property followed by the basename's extension gives the basename back. The name contains no `/`. |
| Model.MakeCfg | src/h2mm/model.py:35-41 | Constructing `H2MMCfg` succeeds exactly when `last_install_check` is given. Its default factory raises AttributeError. A missing resource list defaults to empty. Given fields are kept. |
| Selection.SelectTargetIff | src/h2mm/utils.py:31-41 | Selection succeeds exactly when exactly one position holds a target name. It then returns the name at that position. |
| Selection.SelectTargetErrors | src/h2mm/utils.py:38-39 | Two target names at different positions raise ValueError. |
| Selection.SelectTargetNone | src/h2mm/utils.py:38-39 | A list with no target name raises ValueError. |
| Selection.VerifyAndGetTargetFile | src/h2mm/utils.py:31-41 | The collecting loop returns the selection outcome: the single target, or ValueError. |
| Selection.FilteredListProperties | src/h2mm/utils.py:43-52 | The root folder keeps the list unchanged. Otherwise the result is an order-preserving subsequence. A name is in it exactly when it starts with the folder, is not a folder entry, and has as many `/` as the folder has components. |
| Selection.FilterFilelist | src/h2mm/utils.py:43-52 | The loop yields the filtered list. |
| Hashing.Hasher.Update | src/h2mm/utils.py:13-16 | `update` appends the chunk to what the hasher has been fed. |
| Hashing.ReadChunk | src/h2mm/utils.py:15 | A read returns at most 8192 bytes. It returns nothing exactly at end of stream. |
| Hashing.ChunksFlatten | src/h2mm/utils.py:15-16 | Reading in chunks neither loses, adds nor reorders bytes. Every chunk is non-empty and at most 8192 bytes. |
| Hashing.FeedStream | src/h2mm/utils.py:14-16 | The read loop feeds the whole stream, in order, to the hasher. |
| Hashing.HashInputOrder | src/h2mm/utils.py:12-28 | The hashed bytes start with the target. Swapping the two sidecars changes the input unless their two concatenations coincide. |
| Hashing.EmptySidecarLikeMissing | src/h2mm/utils.py:18-26 | An empty sidecar contributes nothing: it hashes like a missing one. |
| Hashing.FeedSidecar | src/h2mm/utils.py:18-26 | A present sidecar is fed whole; an absent one feeds nothing. |
| Hashing.CalculateHash | src/h2mm/utils.py:12-28 | The result is the digest of target, then GPU sidecar, then stream sidecar, as far as they exist. Otherwise it is the read error. |
| Hashing.HashArchiveUnit | src/h2mm/utils.py:62-75 | An archive unit hashes to the digest of its member bytes in the same order. A failing member read is the error. |
| Hashing.SameBytesSameHash | src/h2mm/utils.py:12-28 | Content addressing: a directory unit and an archive unit with the same target and sidecar bytes get the same hash. |
| MtimeCache.CallSpec | src/h2mm/etc.py:14-42 | Covers each case of a call. A non-string path raises TypeError and changes nothing. A failing mtime bypasses the cache. A current entry answers without running the function. Otherwise the function runs: a value is stored with the current mtime, and an exception leaves the key absent. |
| MtimeCache.CallFrame | src/h2mm/etc.py:33-41 | A call keeps the two dictionaries' key sets equal. It leaves every other key's entries unchanged. |
| MtimeCache.ConsecutiveCalls | src/h2mm/etc.py:26-31 | Two consecutive calls with the same key and unchanged mtime run the function at most once. The second call returns the first call's value. |
| MtimeCache.AgreeingCacheIsTransparent | src/h2mm/etc.py:18-42 | While every stored result is what the function gives now, a call returns exactly the function's result and keeps that agreement. |
| MtimeCache.Cache.constructor | src/h2mm/etc.py:9-11 | Both dictionaries start empty and consistent. |
| MtimeCache.Cache.Call | src/h2mm/etc.py:14-42 | The wrapper's new dictionaries and result are those of the call specification. |
| Meta.FolderMetaHash | src/h2mm/utils.py:90-101 | A successful folder meta comes from a directory. Its hash is the content hash of the one target that selection picks among the listed regular files. |
| Meta.FolderMetaManifest | src/h2mm/utils.py:92-98 | The folder meta has a manifest exactly when `manifest.json` is a listed regular file. |
| Meta.GenerateFolderMeta | src/h2mm/utils.py:90-101 | The method yields the folder meta. This includes the manifest error that comes before the target check. |
| Meta.ArchiveMetaSound | src/h2mm/utils.py:55-83 | A successful archive meta comes from an archive that opened. Its hash is the hash of the one target that selection picks from the folder's entry list. It has a manifest exactly when `<folder>manifest.json` is among the names. The rar variant, utils.py lines 108-136, is the same code. |
| Meta.SubfolderManifestReadsRoot | src/h2mm/utils.py:77-79 | A sub-folder's `manifest.json` is looked for by name but read from the archive root. Without a root manifest this raises KeyError for a zip file and NoRarEntry for a rar file. |
| Meta.GenerateArchiveMeta | src/h2mm/utils.py:55-83 | The method yields the archive meta. |
| Meta.SmartGetMetaDispatch | src/h2mm/utils.py:143-184 | Covers the dispatch on the candidate's shape. Only folders consult the cache. A found unit carries the normalised resource group and the candidate's relative path and sub-path. A tuple of another length raises AttributeError. A file that is neither zip nor rar raises ValueError. |
| Meta.SmartGetMetaFolder | src/h2mm/utils.py:144-154 | While the cache agrees with the folder meta, a folder candidate yields exactly the uncached folder meta, and the cache keeps agreeing. |
| Meta.SmartGetMeta | src/h2mm/utils.py:143-184 | The method's result and cache update are those of the dispatch specification. |
| Scanner.ArchiveEntryClassification | src/h2mm/utils.py:188-195 | The folder list starts with the root. Every name goes to exactly one of the folder list and the file list. Names ending in `/` are folders. |
| Scanner.ArchiveCandidatesMembers | src/h2mm/utils.py:197-214 | A candidate is yielded exactly for each archive folder whose direct files hold a single non-empty target. The root folder is one of them when it qualifies. |
| Scanner.FolderEmitsIff | src/h2mm/utils.py:198-209 | A folder yields a candidate exactly when one position of its direct files holds a target, and that name is non-empty. |
| Scanner.PartitionEntries | src/h2mm/utils.py:188-195 | The partition loop yields the folder list and the file list. |
| Scanner.RecursiveGetEligibleForArchive | src/h2mm/utils.py:187-216 | The method yields the candidates of the archive. |
| Scanner.RemainingAsWritten | src/h2mm/utils.py:226-230 | Filtering by membership in the archive and directory lists equals filtering each name by its own kind. |
| Scanner.RemainingMembers | src/h2mm/utils.py:226-230 | The remaining entries are an order-preserving subsequence of the listing. They are exactly the names that are neither archives nor directories. |
| Scanner.ScanFolderLoop | src/h2mm/utils.py:238-241 | The sub-directory loop yields the folder scan, including its first error. |
| Scanner.ScanArchiveLoop | src/h2mm/utils.py:243-249 | The archive loop yields the archive scan, including its first error. |
| Scanner.GetAllEligiblePairs | src/h2mm/utils.py:219-251 | The recursive method yields the scan specification. This includes RecursionError once the nesting allowance is spent. |
| Scanner.ScanFoldersVisibleOnly | src/h2mm/utils.py:238-241 | Scanning all sub-directories equals scanning only those not starting with `.` or `_`, errors included. |
| Scanner.ScanArchivesDeeper | src/h2mm/utils.py:243-249 | Every candidate from an archive is an archive candidate whose location is longer than the scanned directory's path. |
| Scanner.ScanFoldersDeeper | src/h2mm/utils.py:238-241 | Every candidate from a sub-directory has a location longer than the scanned directory's path. |
| Scanner.EligibleDepth | src/h2mm/utils.py:219-251 | Every candidate is the directory itself or lies at a longer path than the directory. |
| Scanner.DirSelfEmitted | src/h2mm/utils.py:226-236 | The directory itself is a candidate exactly when its remaining entries hold a single target with a non-empty name. |
| TextWrap.WrapFoldInvariant | src/h2mm/utils.py:267-275 | The loop keeps its invariant. Finished lines and the current line together spell the input read so far. The current width is the current line's width. Every line break was forced. |
| TextWrap.WrapLinesProperties | src/h2mm/utils.py:260-280 | The lines concatenate back to the stripped text. Each line is well wrapped: a line of two or more characters fits the width, and every break was forced by the next character. There are no lines exactly for blank text. The first line is empty exactly when the first character alone is too wide. |
| TextWrap.WrapLinesUnique | src/h2mm/utils.py:260-280 | Any well-wrapped split of the stripped text is the one the wrapper produces, so the greedy wrapper is characterised by its properties. |
| TextWrap.WrapText | src/h2mm/utils.py:260-280 | The method returns the wrapped lines joined by newlines. |
| Manager.InstallFoldStops | src/h2mm/mgr.py:80-98 | Once raised, an exception ends the install loop: later entries change nothing. |
| Manager.InstallFoldSound | src/h2mm/mgr.py:80-98 | Every entry is a listed regular file with `patch_` in its name and extension, stored with its content hash. No hash appears twice. Entries are only appended. |
| Manager.InstallFoldComplete | src/h2mm/mgr.py:80-98 | A loop that raised nothing recorded every qualifying file under its hash. |
| Manager.InstallDuplicateRaises | src/h2mm/mgr.py:93-96 | Two qualifying files with equal hashes make the loop raise. Unless an earlier file already raised, it raises RuntimeError at the second of them. |
| Manager.ReparseInstalledResets | src/h2mm/mgr.py:74-100 | The check time becomes the game path's mtime. The other indexes are untouched. Nothing of the previous install index survives, and every entry comes from the data directory. |
| Manager.ListRowsOk | src/h2mm/mgr.py:254-273 | The table is produced exactly when no entry has a truthy manifest or an empty reference list. |
| Manager.ListRowsRows | src/h2mm/mgr.py:254-273 | The table has one row per install entry, in order. Each row shows the entry's hash and file, "N/A" as description, and the first reference's name or "Unknown". |
| Manager.ListRowsStops | src/h2mm/mgr.py:256-273 | The first entry whose row raises ends the listing with that exception. |
| Manager.RemoveFirst | src/h2mm/mgr.py:178 | `list.remove` takes out exactly one occurrence of the element when present, and nothing else. |
| Manager.PruneKeepsOthers | src/h2mm/mgr.py:176-178 | Pruning one list keeps every reference of another group, in order, and adds nothing. |
| Manager.PruneIndexKeeps | src/h2mm/mgr.py:174-180 | Pruning keeps every hash key, even one whose list it empties, and every other group's references. |
| Manager.PruneSkipsAfterRemoval | src/h2mm/mgr.py:176-178 | In any duplicate-free list, when the loop removes a reference of the group at some position, the reference right after it is never visited and stays. |
| Manager.PruneSkipsExample | src/h2mm/mgr.py:176-178 | Pruning the two-element list of two references of the group leaves the second. |
| Manager.PruneIndexNoDup | src/h2mm/mgr.py:174-180 | Pruning leaves duplicate-free reference lists duplicate-free. |
| Manager.PruneList | src/h2mm/mgr.py:176-178 | The in-place removal loop yields the prune specification. |
| Manager.PassFoldKeeps | src/h2mm/mgr.py:224-250 | The rescan pass only grows lists, by references of the normalised group. It never replaces a manifest. It never adds a reference twice. It never ends on a skipped exception. |
| Manager.PassFoldRecords | src/h2mm/mgr.py:224-250 | A pass that ends without an exception records every unit it found. The unit's reference is listed under its hash, and a truthy manifest is the one indexed for that hash. |
| Manager.PassAborts | src/h2mm/mgr.py:224-241 | A lookup that raises a non-skipped exception ends the pass with that exception. So does a hash that already has a manifest, with RuntimeError. Nothing of that candidate is recorded. |
| Manager.PassSkips | src/h2mm/mgr.py:227-235 | BadZipFile, BadRarFile and PasswordRequired change neither index and do not end the pass. |
| Manager.ResolveRef | src/h2mm/mgr.py:202-203 | An integer argument resolves exactly when it is a valid Python index, negative indices included, to that entry's path. |
| Manager.FirstWithPath | src/h2mm/mgr.py:213-215 | `next(...)` finds the first configured folder with the path, or reports none. |
| Manager.ReparseResourceSpec | src/h2mm/mgr.py:201-252 | A rescan never changes the list of configured folder paths. |
| Manager.Rescan | src/h2mm/mgr.py:221-250 | The scan and pass leave the configuration and the install index unchanged. |
| Manager.RescanRecords | src/h2mm/mgr.py:221-250 | A successful scan and pass indexes every unit found: reference under its hash, truthy manifest for that hash. |
| Manager.ReparseResourceRecords | src/h2mm/mgr.py:201-252 | A successful rescan indexes every unit found in the resolved folder, starting from the pruned index. Each reference is listed under its hash, and a truthy manifest is the one indexed for that hash. |
| Manager.ReparseResourceKeeps | src/h2mm/mgr.py:201-252 | Whatever a rescan raises, reference lists stay duplicate-free and every indexed manifest is kept. The install index and the game path are unchanged. |
| Manager.ReparseResourceStamps | src/h2mm/mgr.py:204-216 | A successful rescan resolved an existing, configured folder, and stamped its first entry with its mtime. |
| Manager.ReparseConflictsWithEarlierPass | src/h2mm/mgr.py:218-241 | Rescanning a folder whose first unit was indexed with a manifest raises RuntimeError, because pruning removes references but not manifests. |
| Manager.AddResourceFolderAppends | src/h2mm/mgr.py:182-199 | A folder already configured changes nothing: it returns or raises AssertionError as `skip_existing` says. A new folder appends exactly its absolute path, whatever the rescan then does. |
| Manager.AddResourceFolderDistinct | src/h2mm/mgr.py:186-198 | Configured folder paths stay pairwise distinct. |
| Manager.AddResourceOnlyArchives | src/h2mm/mgr.py:112-141 | Only an existing zip or rar file can be added successfully. |
| Manager.AddResourceAppends | src/h2mm/mgr.py:128-141 | A successful add appends one reference under one hash, not held before. Nothing else in the resource index changes. |
| Manager.AddResourceEffects | src/h2mm/mgr.py:128-139 | Once the unit is found, the copy to the hash under the folder's basename decides first: if it fails, OSError and nothing changes. After it, a truthy manifest is indexed whatever follows. A reference already listed raises RuntimeError and leaves the hash's list, created empty if missing, in the index. Otherwise the add succeeds. |
| Manager.AddResourceNoDup | src/h2mm/mgr.py:132-141 | Whatever happens, reference lists stay duplicate-free. |
| Manager.InstallCheckUpToDate | src/h2mm/mgr.py:66-70 | After a successful check the recorded check time is not older than the game path's mtime. An up-to-date index is left alone. |
| Manager.ResourceCheck | src/h2mm/mgr.py:157-159 | One staleness check never changes the configured folder paths. |
| Manager.ResourceCheckKeeps | src/h2mm/mgr.py:156-159 | The resource check loop keeps the folder paths and the install index, and keeps reference lists duplicate-free. |
| Manager.PostInitKeeps | src/h2mm/mgr.py:55-72 | Start-up keeps the folder paths and keeps reference lists duplicate-free. |
| Manager.H2MM.constructor | src/h2mm/mgr.py:13-20 | The three indexes start empty. The dataclass constructor's call of `__post_init__` is the separate `PostInit` method. |
| Manager.H2MM.ReparseInstalledMods | src/h2mm/mgr.py:74-100 | The new state and outcome are those of the rebuild specification. |
| Manager.H2MM.ListInstalledMods | src/h2mm/mgr.py:254-273 | The result is the table specification. |
| Manager.H2MM.Prune | src/h2mm/mgr.py:174-180 | Only the resource index changes, to its pruned form. |
| Manager.H2MM.RecordCandidates | src/h2mm/mgr.py:224-250 | The pass loop leaves both indexes and the cache as the pass fold says, with its error. Configuration and install index are unchanged. |
| Manager.H2MM.RecordCandidate | src/h2mm/mgr.py:225-250 | One iteration is one pass step. |
| Manager.H2MM.ReparseResourceFolder | src/h2mm/mgr.py:201-252 | The new state, cache and outcome are those of the rescan specification. |
| Manager.H2MM.AddResourceFolder | src/h2mm/mgr.py:182-199 | The new state, cache and outcome are those of the add-folder specification. |
| Manager.H2MM.AddResource | src/h2mm/mgr.py:112-141 | The new state, cache and outcome are those of the add-resource specification. |
| Manager.H2MM.CheckInstallIndex | src/h2mm/mgr.py:66-70 | The new state and outcome are those of the install check specification. |
| Manager.H2MM.CheckResources | src/h2mm/mgr.py:156-159 | The loop's new state, cache and outcome are those of the resource check from the first folder. |
| Manager.H2MM.CheckResource | src/h2mm/mgr.py:158-159 | One round rescans a folder exactly when its mtime is newer than the recorded one. |
| Manager.H2MM.PostInit | src/h2mm/mgr.py:55-72 | The new state, cache and outcome are those of the start-up specification. |

## Left out

- Scanner.ScanArchivesDeeper: states only that each location is longer than the directory's path, not that it starts with it, because the proof follows lengths, not prefixes, through `Join` and the candidates built from each archive.
- Scanner.ScanFoldersDeeper: states only that each location is longer than the directory's path, not that it starts with it, for the same reason.
- Manager.H2MM.constructor: does not run start-up. In Python the dataclass constructor calls `__post_init__`; here a client calls `PostInit` after construction and can skip it.
- Persistence is not modelled. This covers:
  - `H2MM.load`;
  - `__load_install_index`;
  - the loading half of `__load_mod_resource`;
  - `__save_config`, `__save_install_index` and `__save_mod_resource`;
  - `H2MMCfg.exists` and `H2MMCfg.create`;
  - the index file paths set in `__post_init__`.
  
  The indexes are modelled as already loaded, and saving is a side effect with no bearing on the in-memory state.
- Logging of skipped archives is not modelled. It is output only.
- `register_new_mod` is not modelled. It reads `cfg.resource_folders`, which the configuration does not have, and nothing calls it.
- The `calculate_zip_hash`, `calculate_folder_hash` and `calculate_rar_hash` wrappers are not modelled. They only project the hash out of a meta.
- The `__main__.py` command-line interface is not part of this model.
- `functools.cache` on `generate_zip_meta` and `generate_rar_meta` is not modelled. Over one immutable environment a memoised call returns what a fresh call returns.
- The file system is a map keyed by the path as spelled. Symbolic links, case folding and Windows separators are not modelled. `os.path.abspath`, `normpath`, `relpath`, `join`, `basename` and `splitext` are their POSIX string forms. The working directory is a parameter.
- The effect of `shutil.copy` in `add_resource` is not modelled. Only its failure conditions are (the source is not a regular file, or the destination's directory is missing). The copied file is invisible to the indexes.
- Modification times are integers, not floats.
- SHA-256 is the environment's `digest` function of the bytes fed. Its collision resistance is not modelled.
- JSON parsing is the environment's `ParseManifest`. A manifest is a flat map from strings to strings.
- `wcwidth.wcwidth` is a parameter `w` returning a non-negative width. The `-1` it returns for control characters is not modelled.
- The interpreter's recursion limit is a fuel parameter of the directory scan, spent one unit per nested call. The exact depth at which Python raises RecursionError is not modelled.
- `assert` statements are modelled as raising AssertionError. Running under `python -O`, where they vanish, is not modelled.
- Concurrency is not modelled: nothing in the core is concurrent.
- Scanner.EligibleDepth: the source places every nested candidate under the scanned directory. The lemma states only that its location is longer than the directory's path, not that the directory is a prefix of it.
- MtimeCache.CallSpec: Python's `(path, args, frozenset(kwargs.items()))` key is modelled as a path plus one opaque argument value. The split between positional and keyword arguments is not modelled.

## Source behaviour reproduced as written

The model follows the code where it differs from what its names suggest.
Each item has a lemma exhibiting it:

- Pruning removes from the list it is iterating. In a duplicate-free list, a reference that directly follows a removed one is skipped and stays, even when it is of the pruned group (`Manager.PruneSkipsAfterRemoval`, with the two-element instance `Manager.PruneSkipsExample`).
- Rescanning a folder prunes its references but not its manifests. A rescan of a folder holding a unit with a manifest raises RuntimeError on that unit (`Manager.ReparseConflictsWithEarlierPass`).
- Archive meta looks for `<folder>manifest.json` but opens the root `manifest.json`. A sub-folder manifest without a root manifest raises KeyError for a zip file and NoRarEntry for a rar file (`Meta.SubfolderManifestReadsRoot`).
- `list_installed_mods` reads `manifest.name` from a parsed JSON object. Any truthy manifest raises AttributeError. A hash with an empty reference list raises IndexError. Both show in `Manager.ListRowsOk`.
- `add_resource` copies into the destination's basename, relative to the working directory. It creates the hash's list and stores the manifest before its duplicate check, so both survive the RuntimeError. Both show in `Manager.AddResourceEffects`. A directory unit always fails at the copy, so only zip and rar files can be added (`Manager.AddResourceOnlyArchives`).
- The default factory of `last_install_check` calls `datetime.datetime.now()` on the class `datetime`. It always raises AttributeError (`Model.MakeCfg`).
- Folder meta reads the manifest before choosing the target, so a broken manifest is reported even for a directory with no single target (`Meta.GenerateFolderMeta`).
