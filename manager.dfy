/** The mod manager `H2MM`: the resource index (hash to path references),
    the install index (hash to installed file, in insertion order), the
    manifest index, and the operations that rebuild and query them.  Each
    operation is a specification function from one manager state to the next
    and a method of the class `H2MM` proved to follow it. */
module Manager {
  import opened Wrappers
  import opened PyStr
  import opened PyPath
  import opened Model
  import opened Environment
  import opened Seqs
  import opened Hashing
  import opened MtimeCache
  import opened Scanner
  import opened Meta

  /** One entry of the install index. */
  datatype Installed = Installed(hash: Hash, file: string)

  /** The keys of the install index, in insertion order. */
  function Hashes(s: seq<Installed>): (r: seq<Hash>)
    ensures |r| == |s| && forall i :: 0 <= i < |s| ==> r[i] == s[i].hash
  {
    if s == [] then [] else Hashes(s[..|s| - 1]) + [s[|s| - 1].hash]
  }

  /** A dictionary holds each key once. */
  predicate DistinctHashes(s: seq<Installed>) {
    forall i, j :: 0 <= i < j < |s| ==> s[i].hash != s[j].hash
  }

  /** The fields of `H2MM` the operations read and write. */
  datatype MgrState = MgrState(
    cfg: Cfg,
    resIndex: map<Hash, seq<PathRef>>,   // mod_res_index
    installed: seq<Installed>,           // mod_install_index, in insertion order
    manifests: map<Hash, Manifest>)      // manifest_index

  /** The state after an operation, and what it returned or raised. */
  datatype Done = Done(st: MgrState, result: Result<()>)

  /** The same, for operations that also consult the folder-meta cache. */
  datatype CachedDone = CachedDone(st: MgrState, cache: FolderCache, result: Result<()>)

  // ---------------------------------------------------------------------
  // reparse_installed_mods

  const DataDir := "data"
  const PatchMarker := "patch_"

  function GameDataDir(cfg: Cfg): string {
    Join(cfg.gamePath, DataDir)
  }

  /** The test each entry of the game's data directory must pass: a regular
      file whose name, and whose extension, contain "patch_". */
  predicate IsPatchFile(env: Env, dir: string, file: string) {
    IsFile(env, Join(dir, file)) && Contains(file, PatchMarker) && Contains(Ext(file), PatchMarker)
  }

  /** The install index built so far, and the exception that ended the
      loop, if any. */
  datatype InstallRun = InstallRun(entries: seq<Installed>, error: Option<Exc>)

  /** One iteration of the loop: skip the entry, record its hash, or raise
      (a hashing error, or RuntimeError for a hash already recorded). */
  function InstallStep(env: Env, dir: string, run: InstallRun, file: string): InstallRun {
    if run.error.Some? || !IsPatchFile(env, dir, file) then run
    else
      match FileHash(env, dir, file)
      case Err(e) => run.(error := Some(e))
      case Ok(h) =>
        if h in Hashes(run.entries) then run.(error := Some(RuntimeError))
        else run.(entries := run.entries + [Installed(h, file)])
  }

  /** The loop over the directory listing, from an empty index. */
  function InstallFold(env: Env, dir: string, names: seq<string>): InstallRun
    decreases |names|
  {
    if names == [] then InstallRun([], None)
    else InstallStep(env, dir, InstallFold(env, dir, names[..|names| - 1]), names[|names| - 1])
  }

  /** `reparse_installed_mods`: record the game path's mtime, empty the
      install index, then rebuild it from the data directory. */
  function ReparseInstalledSpec(env: Env, st: MgrState): Done {
    match GetMtime(env, st.cfg.gamePath)
    case Err(e) => Done(st, Err(e))
    case Ok(mt) =>
      var cleared := st.(cfg := st.cfg.(lastInstallCheck := mt), installed := []);
      match Listdir(env, GameDataDir(st.cfg))
      case Err(e) => Done(cleared, Err(e))
      case Ok(names) =>
        var run := InstallFold(env, GameDataDir(st.cfg), names);
        Done(cleared.(installed := run.entries), if run.error.Some? then Err(run.error.value) else Ok(()))
  }

  lemma InstallFoldStep(env: Env, dir: string, names: seq<string>, i: nat)
    requires i < |names|
    ensures InstallFold(env, dir, names[..i + 1]) == InstallStep(env, dir, InstallFold(env, dir, names[..i]), names[i])
  {
    assert names[..i + 1][..i] == names[..i];
  }

  /** Once raised, an exception ends the loop: later entries change nothing. */
  lemma {:induction false} InstallFoldStops(env: Env, dir: string, names: seq<string>, k: nat)
    requires k <= |names| && InstallFold(env, dir, names[..k]).error.Some?
    ensures InstallFold(env, dir, names) == InstallFold(env, dir, names[..k])
    decreases |names| - k
  {
    if k < |names| {
      InstallFoldStep(env, dir, names, k);
      InstallFoldStops(env, dir, names, k + 1);
    } else {
      assert names[..k] == names;
    }
  }

  /** The loop ends with the exception it raised within the first `k` entries. */
  lemma InstallFoldStopsError(env: Env, dir: string, names: seq<string>, k: nat)
    requires k <= |names| && InstallFold(env, dir, names[..k]).error.Some?
    ensures InstallFold(env, dir, names).error == InstallFold(env, dir, names[..k]).error
  {
    InstallFoldStops(env, dir, names, k);
  }

  /** The invariant of the install loop: distinct keys, and each entry a
      qualifying file of the listing with its content hash. */
  predicate SoundIndex(env: Env, dir: string, names: seq<string>, entries: seq<Installed>) {
    DistinctHashes(entries)
    && forall e | e in entries ::
         e.file in names && IsPatchFile(env, dir, e.file) && FileHash(env, dir, e.file) == Ok(e.hash)
  }

  /** One iteration keeps the invariant and only appends. */
  lemma InstallStepSound(env: Env, dir: string, names: seq<string>, run: InstallRun, file: string)
    requires SoundIndex(env, dir, names, run.entries) && file in names
    ensures SoundIndex(env, dir, names, InstallStep(env, dir, run, file).entries)
    ensures run.entries <= InstallStep(env, dir, run, file).entries
  {
    var next := InstallStep(env, dir, run, file);
    if run.error.None? && IsPatchFile(env, dir, file) && FileHash(env, dir, file).Ok? {
      var h := FileHash(env, dir, file).value;
      if h !in Hashes(run.entries) {
        AppendSound(env, dir, names, run.entries, Installed(h, file));
      }
    }
  }

  lemma AppendSound(env: Env, dir: string, names: seq<string>, entries: seq<Installed>, e: Installed)
    requires SoundIndex(env, dir, names, entries) && e.hash !in Hashes(entries)
    requires e.file in names && IsPatchFile(env, dir, e.file) && FileHash(env, dir, e.file) == Ok(e.hash)
    ensures SoundIndex(env, dir, names, entries + [e])
  {
    var next := entries + [e];
    forall i, j | 0 <= i < j < |next| ensures next[i].hash != next[j].hash {
      if j == |entries| {
        assert Hashes(entries)[i] == entries[i].hash;
      }
    }
    forall x | x in next
      ensures x.file in names && IsPatchFile(env, dir, x.file) && FileHash(env, dir, x.file) == Ok(x.hash)
    {
      if x != e {
        assert x in entries;
      }
    }
  }

  /** Every entry of the rebuilt index is a qualifying file of the listing
      with its content hash, no hash is recorded twice, and an entry once
      recorded is never overwritten: the index of a shorter listing is a
      prefix of it. */
  lemma {:induction false} InstallFoldSound(env: Env, dir: string, names: seq<string>)
    ensures SoundIndex(env, dir, names, InstallFold(env, dir, names).entries)
    ensures forall k :: 0 <= k <= |names| ==> InstallFold(env, dir, names[..k]).entries <= InstallFold(env, dir, names).entries
    decreases |names|
  {
    if names != [] {
      var init := names[..|names| - 1];
      InstallFoldSound(env, dir, init);
      var prev := InstallFold(env, dir, init);
      var run := InstallFold(env, dir, names);
      assert SoundIndex(env, dir, names, prev.entries) by {
        forall e | e in prev.entries ensures e.file in names {
          assert e.file in init;
        }
      }
      InstallStepSound(env, dir, names, prev, names[|names| - 1]);
      forall k | 0 <= k <= |names|
        ensures InstallFold(env, dir, names[..k]).entries <= run.entries
      {
        if k < |names| {
          assert names[..k] == init[..k];
        } else {
          assert names[..k] == names;
        }
      }
    }
  }

  /** A run that raised nothing recorded every qualifying file of the
      listing under its hash. */
  lemma {:induction false} InstallFoldComplete(env: Env, dir: string, names: seq<string>)
    requires InstallFold(env, dir, names).error.None?
    ensures forall i | 0 <= i < |names| && IsPatchFile(env, dir, names[i]) ::
              FileHash(env, dir, names[i]).Ok?
              && Installed(FileHash(env, dir, names[i]).value, names[i]) in InstallFold(env, dir, names).entries
    decreases |names|
  {
    if names != [] {
      var init := names[..|names| - 1];
      var run := InstallFold(env, dir, names);
      InstallFoldComplete(env, dir, init);
      InstallFoldSound(env, dir, names);
      forall i | 0 <= i < |names| && IsPatchFile(env, dir, names[i])
        ensures FileHash(env, dir, names[i]).Ok?
        ensures Installed(FileHash(env, dir, names[i]).value, names[i]) in run.entries
      {
        if i < |names| - 1 {
          assert names[i] == init[i];
          assert InstallFold(env, dir, init).entries <= run.entries by {
            assert names[..|names| - 1] == init;
          }
        }
      }
    }
  }

  /** Two different qualifying files with the same hash make the loop
      raise: the second never overwrites the first.  Unless an earlier
      file already raised, the exception is the RuntimeError raised at the
      second file. */
  lemma InstallDuplicateRaises(env: Env, dir: string, names: seq<string>, i: nat, j: nat)
    requires i < j < |names| && names[i] != names[j]
    requires IsPatchFile(env, dir, names[i]) && IsPatchFile(env, dir, names[j])
    requires FileHash(env, dir, names[i]).Ok? && FileHash(env, dir, names[i]) == FileHash(env, dir, names[j])
    ensures InstallFold(env, dir, names).error.Some?
    ensures InstallFold(env, dir, names[..j]).error.None? ==> InstallFold(env, dir, names).error == Some(RuntimeError)
  {
    if InstallFold(env, dir, names[..j]).error.None? {
      DuplicateRaisesAt(env, dir, names, i, j);
    } else {
      InstallFoldStopsError(env, dir, names, j);
    }
  }

  /** When no earlier file raised, the second of the two files raises
      RuntimeError and the loop ends with it. */
  lemma DuplicateRaisesAt(env: Env, dir: string, names: seq<string>, i: nat, j: nat)
    requires i < j < |names| && IsPatchFile(env, dir, names[j])
    requires IsPatchFile(env, dir, names[i]) && FileHash(env, dir, names[i]).Ok?
    requires FileHash(env, dir, names[i]) == FileHash(env, dir, names[j])
    requires InstallFold(env, dir, names[..j]).error.None?
    ensures InstallFold(env, dir, names).error == Some(RuntimeError)
  {
    var run := InstallStep(env, dir, InstallFold(env, dir, names[..j]), names[j]);
    assert run.error == Some(RuntimeError) by {
      HashRecorded(env, dir, names[..j], i);
    }
    StopsAfterStep(env, dir, names, j);
  }

  /** An exception raised at entry `j` ends the loop. */
  lemma StopsAfterStep(env: Env, dir: string, names: seq<string>, j: nat)
    requires j < |names| && InstallStep(env, dir, InstallFold(env, dir, names[..j]), names[j]).error.Some?
    ensures InstallFold(env, dir, names).error == InstallStep(env, dir, InstallFold(env, dir, names[..j]), names[j]).error
  {
    InstallFoldStep(env, dir, names, j);
    InstallFoldStopsError(env, dir, names, j + 1);
  }

  /** A qualifying file the loop passed without raising has its hash in
      the index. */
  lemma HashRecorded(env: Env, dir: string, names: seq<string>, i: nat)
    requires i < |names| && IsPatchFile(env, dir, names[i]) && FileHash(env, dir, names[i]).Ok?
    requires InstallFold(env, dir, names).error.None?
    ensures FileHash(env, dir, names[i]).value in Hashes(InstallFold(env, dir, names).entries)
  {
    var run := InstallFold(env, dir, names);
    var h := FileHash(env, dir, names[i]).value;
    assert Installed(h, names[i]) in run.entries by {
      InstallFoldComplete(env, dir, names);
    }
    var k :| 0 <= k < |run.entries| && run.entries[k] == Installed(h, names[i]);
    assert Hashes(run.entries)[k] == h;
  }

  /** After a rebuild that got past the game path's mtime, the recorded check
      time is that mtime and nothing of the previous install index is left:
      every entry comes from the data directory. */
  lemma ReparseInstalledResets(env: Env, st: MgrState)
    requires GetMtime(env, st.cfg.gamePath).Ok?
    ensures var d := ReparseInstalledSpec(env, st);
            && d.st.cfg == st.cfg.(lastInstallCheck := GetMtime(env, st.cfg.gamePath).value)
            && d.st.resIndex == st.resIndex && d.st.manifests == st.manifests
            && DistinctHashes(d.st.installed)
            && (d.st.installed != [] ==> Listdir(env, GameDataDir(st.cfg)).Ok?)
            && (forall e | e in d.st.installed ::
                  e.file in Listdir(env, GameDataDir(st.cfg)).value
                  && IsPatchFile(env, GameDataDir(st.cfg), e.file))
  {
    var names := Listdir(env, GameDataDir(st.cfg));
    if names.Ok? {
      InstallFoldSound(env, GameDataDir(st.cfg), names.value);
    }
  }

  // ---------------------------------------------------------------------
  // list_installed_mods

  /** A row of the table `list_installed_mods` returns. */
  datatype Row = Row(hash: Hash, installedFile: string, name: string, description: string)

  const UnknownName := "Unknown"
  const NoDescription := "N/A"

  /** The row of one install-index entry.  A truthy manifest is a parsed
      JSON object, which has no attribute `name`. */
  function RowFor(e: Installed, manifests: map<Hash, Manifest>, resIndex: map<Hash, seq<PathRef>>): Result<Row> {
    if e.hash in manifests && Truthy(Some(manifests[e.hash])) then Err(AttributeError)
    else if e.hash !in resIndex then Ok(Row(e.hash, e.file, UnknownName, NoDescription))
    else if resIndex[e.hash] == [] then Err(IndexError)
    else Ok(Row(e.hash, e.file, Name(resIndex[e.hash][0]), NoDescription))
  }

  /** The table, or the exception of the first entry that raises. */
  function ListRows(installed: seq<Installed>, manifests: map<Hash, Manifest>, resIndex: map<Hash, seq<PathRef>>): Result<seq<Row>>
    decreases |installed|
  {
    if installed == [] then Ok([])
    else
      var rows :- ListRows(installed[..|installed| - 1], manifests, resIndex);
      var row :- RowFor(installed[|installed| - 1], manifests, resIndex);
      Ok(rows + [row])
  }

  /** An entry `list_installed_mods` can show: no truthy manifest, and not
      an empty reference list. */
  predicate Listable(e: Installed, manifests: map<Hash, Manifest>, resIndex: map<Hash, seq<PathRef>>) {
    !(e.hash in manifests && |manifests[e.hash]| > 0) && !(e.hash in resIndex && resIndex[e.hash] == [])
  }

  /** The table is produced exactly when every entry can be shown. */
  lemma {:induction false} ListRowsOk(installed: seq<Installed>, manifests: map<Hash, Manifest>, resIndex: map<Hash, seq<PathRef>>)
    ensures ListRows(installed, manifests, resIndex).Ok?
            <==> forall i | 0 <= i < |installed| :: Listable(installed[i], manifests, resIndex)
    decreases |installed|
  {
    if installed != [] {
      var init := installed[..|installed| - 1];
      ListRowsOk(init, manifests, resIndex);
      assert forall i | 0 <= i < |init| :: init[i] == installed[i];
    }
  }

  /** The table has one row per install-index entry, in order. */
  lemma {:induction false} ListRowsRows(installed: seq<Installed>, manifests: map<Hash, Manifest>, resIndex: map<Hash, seq<PathRef>>)
    requires ListRows(installed, manifests, resIndex).Ok?
    ensures var rows := ListRows(installed, manifests, resIndex).value;
            && |rows| == |installed|
            && forall i | 0 <= i < |installed| :: RowShows(rows[i], installed[i], resIndex)
    decreases |installed|
  {
    if installed != [] {
      var init := installed[..|installed| - 1];
      var e := installed[|installed| - 1];
      var prev := ListRows(init, manifests, resIndex);
      var row := RowFor(e, manifests, resIndex);
      assert prev.Ok? && row.Ok?;
      ListRowsRows(init, manifests, resIndex);
      var rows := ListRows(installed, manifests, resIndex).value;
      assert rows == prev.value + [row.value];
      forall i | 0 <= i < |installed| ensures RowShows(rows[i], installed[i], resIndex) {
        if i < |init| {
          assert init[i] == installed[i];
        }
      }
    }
  }

  /** A row shows its entry's hash and file, "N/A" as description, and as
      name the name of the hash's first path reference, or "Unknown" for a
      hash without references. */
  predicate RowShows(row: Row, e: Installed, resIndex: map<Hash, seq<PathRef>>) {
    && row.hash == e.hash && row.installedFile == e.file && row.description == NoDescription
    && (e.hash !in resIndex ==> row.name == UnknownName)
    && (e.hash in resIndex && resIndex[e.hash] != [] ==> row.name == Name(resIndex[e.hash][0]))
  }

  // ---------------------------------------------------------------------
  // prune_resource_folder

  /** `list.remove(x)`: drop the first element equal to `x`. */
  function RemoveFirst(l: seq<PathRef>, x: PathRef): (r: seq<PathRef>)
    ensures x in l ==> |r| == |l| - 1
    ensures multiset(r) == multiset(l) - multiset{x}
  {
    if l == [] then []
    else if l[0] == x then
      assert l == [l[0]] + l[1..];
      l[1..]
    else
      assert l == [l[0]] + l[1..];
      [l[0]] + RemoveFirst(l[1..], x)
  }

  /** The loop over one reference list from position `i` on.  The list is
      the one being iterated, so a removal shifts the next reference into
      the position the iteration has just visited. */
  function PruneFrom(l: seq<PathRef>, i: nat, group: string): (r: seq<PathRef>)
    ensures multiset(r) <= multiset(l)
    decreases |l| - i
  {
    if i >= |l| then l
    else if l[i].resourceGroup == group then PruneFrom(RemoveFirst(l, l[i]), i + 1, group)
    else PruneFrom(l, i + 1, group)
  }

  /** `prune_resource_folder(group)` on the resource index. */
  function PruneIndex(idx: map<Hash, seq<PathRef>>, group: string): (r: map<Hash, seq<PathRef>>)
    ensures r.Keys == idx.Keys
  {
    map h | h in idx :: PruneFrom(idx[h], 0, group)
  }

  predicate OtherGroup(group: string, p: PathRef) {
    p.resourceGroup != group
  }

  function OtherGroupTest(group: string): PathRef -> bool {
    p => OtherGroup(group, p)
  }

  lemma {:induction false} RemoveFirstKeepsOthers(l: seq<PathRef>, x: PathRef, group: string)
    requires x.resourceGroup == group
    ensures Filter(RemoveFirst(l, x), OtherGroupTest(group)) == Filter(l, OtherGroupTest(group))
  {
    if l != [] {
      var p := OtherGroupTest(group);
      FilterConcat([l[0]], l[1..], p);
      assert [l[0]] + l[1..] == l;
      assert Filter([l[0]], p) == Filter([], p) + (if p(l[0]) then [l[0]] else []);
      if l[0] != x {
        RemoveFirstKeepsOthers(l[1..], x, group);
        FilterConcat([l[0]], RemoveFirst(l[1..], x), p);
      }
    }
  }

  /** Pruning removes only references of the group: the references of
      every other group stay, in order, and nothing is added. */
  lemma {:induction false} PruneKeepsOthers(l: seq<PathRef>, i: nat, group: string)
    ensures Filter(PruneFrom(l, i, group), OtherGroupTest(group)) == Filter(l, OtherGroupTest(group))
    ensures multiset(PruneFrom(l, i, group)) <= multiset(l)
    decreases |l| - i
  {
    if i < |l| {
      if l[i].resourceGroup == group {
        RemoveFirstKeepsOthers(l, l[i], group);
        PruneKeepsOthers(RemoveFirst(l, l[i]), i + 1, group);
      } else {
        PruneKeepsOthers(l, i + 1, group);
      }
    }
  }

  /** Pruning keeps every hash key, even one whose list it empties, and
      keeps every reference of another group in every list. */
  lemma PruneIndexKeeps(idx: map<Hash, seq<PathRef>>, group: string)
    ensures PruneIndex(idx, group).Keys == idx.Keys
    ensures forall h | h in idx ::
              Filter(PruneIndex(idx, group)[h], OtherGroupTest(group)) == Filter(idx[h], OtherGroupTest(group))
  {
    forall h | h in idx
      ensures Filter(PruneIndex(idx, group)[h], OtherGroupTest(group)) == Filter(idx[h], OtherGroupTest(group))
    {
      PruneKeepsOthers(idx[h], 0, group);
    }
  }

  /** When the loop, visiting position `i` of a duplicate-free list, removes
      the reference there, the next reference shifts into position `i` and is
      never visited: it stays in the list, even when it is of the group. */
  lemma PruneSkipsAfterRemoval(l: seq<PathRef>, i: nat, group: string)
    requires NoDup(l) && i + 1 < |l| && l[i].resourceGroup == group
    ensures l[i + 1] in PruneFrom(l, i, group)
  {
    NoDupIsDistinct(l);
    var r := RemoveFirst(l, l[i]);
    RemoveFirstAt(l, i);
    DistinctDrop(l, i);
    PruneKeepsPrefix(r, i + 1, group);
    assert PruneFrom(l, i, group)[..i + 1][i] == r[i] == l[i + 1];
  }

  /** Positions hold pairwise different references. */
  predicate DistinctRefs(l: seq<PathRef>) {
    forall a, b :: 0 <= a < b < |l| ==> l[a] != l[b]
  }

  lemma NoDupIsDistinct(l: seq<PathRef>)
    requires NoDup(l)
    ensures DistinctRefs(l)
  {
    forall a, b | 0 <= a < b < |l| ensures l[a] != l[b] {
      NoDupDistinct(l, a, b);
    }
  }

  lemma NoDupDistinct(l: seq<PathRef>, a: nat, b: nat)
    requires NoDup(l) && a < b < |l|
    ensures l[a] != l[b]
  {
    assert l == l[..b] + l[b..];
    assert l[b] in l;
    assert multiset(l)[l[b]] == multiset(l[..b])[l[b]] + multiset(l[b..])[l[b]];
    assert l[b..][0] == l[b];
    assert l[b] in multiset(l[b..]);
    assert l[b] !in multiset(l[..b]);
    assert l[..b][a] == l[a];
  }

  lemma DistinctDrop(l: seq<PathRef>, i: nat)
    requires DistinctRefs(l) && i < |l|
    ensures DistinctRefs(l[..i] + l[i + 1..])
  {
    var r := l[..i] + l[i + 1..];
    forall a, b | 0 <= a < b < |r| ensures r[a] != r[b] {
      var a' := if a < i then a else a + 1;
      var b' := if b < i then b else b + 1;
      assert r[a] == l[a'] && r[b] == l[b'];
    }
  }

  /** Removing by value the element at position `i` of a list whose
      positions hold different references removes that position. */
  lemma {:induction false} RemoveFirstAt(l: seq<PathRef>, i: nat)
    requires DistinctRefs(l) && i < |l|
    ensures RemoveFirst(l, l[i]) == l[..i] + l[i + 1..]
  {
    if i > 0 {
      var t := l[1..];
      assert l[0] != l[i];
      assert DistinctRefs(t) by {
        forall a, b | 0 <= a < b < |t| ensures t[a] != t[b] {
          assert t[a] == l[a + 1] && t[b] == l[b + 1];
        }
      }
      assert t[i - 1] == l[i];
      RemoveFirstAt(t, i - 1);
      assert RemoveFirst(l, l[i]) == [l[0]] + RemoveFirst(t, l[i]);
      DropShift(l, i);
    }
  }

  lemma DropShift<T>(l: seq<T>, i: nat)
    requires 0 < i < |l|
    ensures l[..i] + l[i + 1..] == [l[0]] + (l[1..][..i - 1] + l[1..][i..])
  {
    assert l[..i] == [l[0]] + l[1..][..i - 1];
    assert l[i + 1..] == l[1..][i..];
  }

  /** On a list whose positions hold different references, the loop from
      position `k` leaves the positions before `k` as they are. */
  lemma {:induction false} PruneKeepsPrefix(r: seq<PathRef>, k: nat, group: string)
    requires DistinctRefs(r) && k <= |r|
    ensures k <= |PruneFrom(r, k, group)| && PruneFrom(r, k, group)[..k] == r[..k]
    decreases |r| - k, 1
  {
    if k < |r| {
      if r[k].resourceGroup == group {
        PruneKeepsPrefixRemoving(r, k, group);
      } else {
        var p := PruneFrom(r, k + 1, group);
        assert PruneFrom(r, k, group) == p;
        PruneKeepsPrefix(r, k + 1, group);
        TakeTake(p, r, k);
      }
    }
  }

  lemma {:induction false} PruneKeepsPrefixRemoving(r: seq<PathRef>, k: nat, group: string)
    requires DistinctRefs(r) && k < |r| && r[k].resourceGroup == group
    ensures k <= |PruneFrom(r, k, group)| && PruneFrom(r, k, group)[..k] == r[..k]
    decreases |r| - k, 0
  {
    var r' := r[..k] + r[k + 1..];
    var p := PruneFrom(r', k + 1, group);
    PruneFromRemoves(r, k, group);
    DistinctDrop(r, k);
    DropTake(r, k);
    if k + 1 <= |r'| {
      PruneKeepsPrefix(r', k + 1, group);
      TakeTake(p, r', k);
    }
  }

  /** Removing the reference at position `k` closes the gap there. */
  lemma PruneFromRemoves(r: seq<PathRef>, k: nat, group: string)
    requires DistinctRefs(r) && k < |r| && r[k].resourceGroup == group
    ensures PruneFrom(r, k, group) == PruneFrom(r[..k] + r[k + 1..], k + 1, group)
  {
    RemoveFirstAt(r, k);
  }

  lemma TakeTake<T>(p: seq<T>, q: seq<T>, k: nat)
    requires k + 1 <= |p| && k + 1 <= |q| && p[..k + 1] == q[..k + 1]
    ensures p[..k] == q[..k]
  {
    assert p[..k] == p[..k + 1][..k];
    assert q[..k] == q[..k + 1][..k];
  }

  lemma DropTake<T>(r: seq<T>, k: nat)
    requires k < |r|
    ensures |r[..k] + r[k + 1..]| == |r| - 1
    ensures (r[..k] + r[k + 1..])[..k] == r[..k]
  {
  }

  /** Of two consecutive references of the group at the head of a list, the
      second is skipped. */
  lemma PruneSkipsExample(group: string)
    ensures var a, b := PathRef(group, "a", ""), PathRef(group, "b", "");
            PruneFrom([a, b], 0, group) == [b]
  {
    var a, b := PathRef(group, "a", ""), PathRef(group, "b", "");
    assert RemoveFirst([a, b], a) == [b];
    assert PruneFrom([b], 1, group) == [b];
  }

  // ---------------------------------------------------------------------
  // The pass of reparse_resource_folder over the eligible pairs

  /** Each path reference occurs at most once in a list. */
  predicate NoDup(s: seq<PathRef>) {
    forall x | x in s :: multiset(s)[x] <= 1
  }

  predicate NoDupIndex(idx: map<Hash, seq<PathRef>>) {
    forall h | h in idx :: NoDup(idx[h])
  }

  /** The tuple `smart_get_meta` is given for a candidate. */
  function ArgOf(c: Candidate): MetaArg {
    match c
    case DirCandidate(p) => TupleArg([p])
    case ArchiveCandidate(a, f) => TupleArg([a, f])
  }

  /** The exceptions the pass logs and skips. */
  predicate Skipped(e: Exc) {
    e == BadZipFile || e == BadRarFile || e == PasswordRequired
  }

  /** What the pass has built so far: the two indexes, the folder-meta
      cache, and the exception that ended it, if any. */
  datatype Pass = Pass(resIndex: map<Hash, seq<PathRef>>, manifests: map<Hash, Manifest>,
                       cache: FolderCache, error: Option<Exc>)

  /** Record a found unit: its manifest when truthy, its reference unless
      the hash's list already holds it. */
  function Record(acc: Pass, f: Found, cache: FolderCache): Pass {
    Pass(AddRef(acc.resIndex, f.hash, f.ref),
         if Truthy(f.manifest) then acc.manifests[f.hash := f.manifest.value] else acc.manifests,
         cache, None)
  }

  /** Append `ref` to the list of `h`, created empty if missing, unless the
      list already holds it. */
  function AddRef(idx: map<Hash, seq<PathRef>>, h: Hash, ref: PathRef): map<Hash, seq<PathRef>> {
    var refs := if h in idx then idx[h] else [];
    idx[h := if ref in refs then refs else refs + [ref]]
  }

  /** One iteration: look the candidate up, skip it on a damaged or
      encrypted archive, raise any other exception, raise RuntimeError when
      its hash already has a manifest, and record it otherwise. */
  function PassStep(env: Env, group: string, acc: Pass, c: Candidate): Pass {
    if acc.error.Some? then acc
    else PassOn(acc, SmartGetMetaSpec(env, acc.cache, ArgOf(c), group))
  }

  /** The iteration once the lookup `o` is done. */
  function PassOn(acc: Pass, o: MetaOutcome): Pass {
    match o.result
    case Err(e) => acc.(cache := o.cache, error := if Skipped(e) then None else Some(e))
    case Ok(f) =>
      if f.hash in acc.manifests then acc.(cache := o.cache, error := Some(RuntimeError))
      else Record(acc, f, o.cache)
  }

  lemma PassStepOn(env: Env, group: string, acc: Pass, c: Candidate, o: MetaOutcome)
    requires acc.error.None? && o == SmartGetMetaSpec(env, acc.cache, ArgOf(c), group)
    ensures PassStep(env, group, acc, c) == PassOn(acc, o)
  {
  }

  function PassFold(env: Env, group: string, cs: seq<Candidate>, init: Pass): Pass
    decreases |cs|
  {
    if cs == [] then init else PassStep(env, group, PassFold(env, group, cs[..|cs| - 1], init), cs[|cs| - 1])
  }

  lemma PassFoldStep(env: Env, group: string, cs: seq<Candidate>, init: Pass, i: nat)
    requires i < |cs|
    ensures PassFold(env, group, cs[..i + 1], init) == PassStep(env, group, PassFold(env, group, cs[..i], init), cs[i])
  {
    assert cs[..i + 1][..i] == cs[..i];
  }

  /** Once raised, an exception ends the pass. */
  lemma {:induction false} PassFoldStops(env: Env, group: string, cs: seq<Candidate>, init: Pass, k: nat)
    requires k <= |cs| && PassFold(env, group, cs[..k], init).error.Some?
    ensures PassFold(env, group, cs, init) == PassFold(env, group, cs[..k], init)
    decreases |cs| - k
  {
    if k < |cs| {
      PassFoldStep(env, group, cs, init, k);
      PassFoldStops(env, group, cs, init, k + 1);
    } else {
      assert cs[..k] == cs;
    }
  }

  /** How many references of hash `h` there were before the pass. */
  function OldCount(idx: map<Hash, seq<PathRef>>, h: Hash): nat {
    if h in idx then |idx[h]| else 0
  }

  /** The resource index only grows: every list of `before` is a prefix of
      the list of the same hash in `after`, and what lists gained belongs to
      the normalised group. */
  predicate IndexGrows(before: map<Hash, seq<PathRef>>, after: map<Hash, seq<PathRef>>, group: string) {
    && (forall h | h in before :: h in after && before[h] <= after[h])
    && (forall h | h in after ::
          forall j | OldCount(before, h) <= j < |after[h]| :: after[h][j].resourceGroup == Normalise(group))
  }

  /** Manifests already indexed are never replaced, and the ones added are
      truthy. */
  predicate ManifestsKept(before: map<Hash, Manifest>, after: map<Hash, Manifest>) {
    && (forall h | h in before :: h in after && after[h] == before[h])
    && (forall h | h in after && h !in before :: |after[h]| > 0)
  }

  /** What the pass keeps from its start `init` to any later point `p`: the
      index only grows, manifests are kept, a reference is never added
      twice, and the exception that ended the pass is never a skipped one. */
  predicate PassInvariant(init: Pass, p: Pass, group: string) {
    && IndexGrows(init.resIndex, p.resIndex, group)
    && ManifestsKept(init.manifests, p.manifests)
    && (NoDupIndex(init.resIndex) ==> NoDupIndex(p.resIndex))
    && (p.error.Some? ==> !Skipped(p.error.value))
  }

  lemma AddRefGrows(before: map<Hash, seq<PathRef>>, idx: map<Hash, seq<PathRef>>, h: Hash, ref: PathRef, group: string)
    requires IndexGrows(before, idx, group) && ref.resourceGroup == Normalise(group)
    ensures IndexGrows(before, AddRef(idx, h, ref), group)
  {
    var refs: seq<PathRef> := if h in idx then idx[h] else [];
    var next: map<Hash, seq<PathRef>> := AddRef(idx, h, ref);
    if h in before {
      assert before[h] <= refs;
    }
    assert OldCount(before, h) <= |refs|;
    forall j | OldCount(before, h) <= j < |next[h]|
      ensures next[h][j].resourceGroup == Normalise(group)
    {
      if j < |refs| {
        assert next[h][j] == refs[j];
      }
    }
  }

  lemma AddRefNoDup(idx: map<Hash, seq<PathRef>>, h: Hash, ref: PathRef)
    requires NoDupIndex(idx)
    ensures NoDupIndex(AddRef(idx, h, ref))
  {
    var refs := if h in idx then idx[h] else [];
    if ref !in refs {
      assert multiset(refs + [ref]) == multiset(refs) + multiset{ref};
    }
  }

  lemma RecordKeeps(init: Pass, acc: Pass, f: Found, cache: FolderCache, group: string)
    requires PassInvariant(init, acc, group) && acc.error.None?
    requires f.hash !in acc.manifests && f.ref.resourceGroup == Normalise(group)
    ensures PassInvariant(init, Record(acc, f, cache), group)
  {
    AddRefGrows(init.resIndex, acc.resIndex, f.hash, f.ref, group);
    if NoDupIndex(init.resIndex) {
      AddRefNoDup(acc.resIndex, f.hash, f.ref);
    }
  }

  /** The iteration once the lookup is done keeps the invariant, given that
      a found unit carries the normalised group. */
  lemma PassOnKeeps(init: Pass, acc: Pass, o: MetaOutcome, group: string)
    requires PassInvariant(init, acc, group) && acc.error.None?
    requires o.result.Ok? ==> o.result.value.ref.resourceGroup == Normalise(group)
    ensures PassInvariant(init, PassOn(acc, o), group)
  {
    if o.result.Ok? && o.result.value.hash !in acc.manifests {
      RecordKeeps(init, acc, o.result.value, o.cache, group);
    }
  }

  lemma PassStepKeeps(env: Env, group: string, init: Pass, acc: Pass, c: Candidate)
    requires PassInvariant(init, acc, group)
    ensures PassInvariant(init, PassStep(env, group, acc, c), group)
  {
    if acc.error.None? {
      var o := SmartGetMetaSpec(env, acc.cache, ArgOf(c), group);
      assert o.result.Ok? ==> o.result.value.ref.resourceGroup == Normalise(group) by {
        SmartGetMetaDispatch(env, acc.cache, ArgOf(c), group);
      }
      PassOnKeeps(init, acc, o, group);
    }
  }

  /** The pass keeps its invariant from start to finish. */
  lemma {:induction false} PassFoldKeeps(env: Env, group: string, cs: seq<Candidate>, init: Pass)
    requires init.error.None?
    ensures PassInvariant(init, PassFold(env, group, cs, init), group)
    decreases |cs|
  {
    if cs == [] {
      assert forall h | h in init.resIndex :: OldCount(init.resIndex, h) == |init.resIndex[h]|;
    } else {
      PassFoldKeeps(env, group, cs[..|cs| - 1], init);
      PassStepKeeps(env, group, init, PassFold(env, group, cs[..|cs| - 1], init), cs[|cs| - 1]);
    }
  }

  /** A candidate whose lookup raises anything but a skipped exception, or
      whose hash already has a manifest (from this pass or an earlier one),
      ends the pass with that exception, or RuntimeError, and records
      nothing of it. */
  lemma PassAborts(env: Env, group: string, cs: seq<Candidate>, init: Pass, i: nat)
    requires i < |cs| && PassFold(env, group, cs[..i], init).error.None?
    requires var before := PassFold(env, group, cs[..i], init);
             var o := SmartGetMetaSpec(env, before.cache, ArgOf(cs[i]), group);
             (o.result.Err? && !Skipped(o.result.error)) || (o.result.Ok? && o.result.value.hash in before.manifests)
    ensures var before := PassFold(env, group, cs[..i], init);
            var o := SmartGetMetaSpec(env, before.cache, ArgOf(cs[i]), group);
            var p := PassFold(env, group, cs, init);
            && p.error == Some(if o.result.Err? then o.result.error else RuntimeError)
            && p.resIndex == before.resIndex && p.manifests == before.manifests
  {
    PassFoldStep(env, group, cs, init, i);
    PassFoldStops(env, group, cs, init, i + 1);
  }

  /** A candidate whose lookup raises BadZipFile, BadRarFile or
      PasswordRequired changes neither index and does not end the pass. */
  lemma PassSkips(env: Env, group: string, cs: seq<Candidate>, init: Pass, i: nat)
    requires i < |cs| && PassFold(env, group, cs[..i], init).error.None?
    requires var before := PassFold(env, group, cs[..i], init);
             var o := SmartGetMetaSpec(env, before.cache, ArgOf(cs[i]), group);
             o.result.Err? && Skipped(o.result.error)
    ensures var before := PassFold(env, group, cs[..i], init);
            var o := SmartGetMetaSpec(env, before.cache, ArgOf(cs[i]), group);
            PassFold(env, group, cs[..i + 1], init) == before.(cache := o.cache)
  {
    PassFoldStep(env, group, cs, init, i);
  }

  /** The pass from `init` over `cs` is the pass over the last entries,
      started where the pass over the first `k` entries ended. */
  lemma {:induction false} PassFoldSplit(env: Env, group: string, cs: seq<Candidate>, init: Pass, k: nat)
    requires k <= |cs|
    ensures PassFold(env, group, cs, init) == PassFold(env, group, cs[k..], PassFold(env, group, cs[..k], init))
    decreases |cs|
  {
    if k == |cs| {
      assert cs[..k] == cs && cs[k..] == [];
    } else {
      var n := |cs|;
      var init' := cs[..n - 1];
      PassFoldSplit(env, group, init', init, k);
      assert init'[..k] == cs[..k];
      assert cs[k..][..|cs[k..]| - 1] == init'[k..];
      assert cs[k..][|cs[k..]| - 1] == cs[n - 1];
    }
  }

  /** The reference `ref` is listed under `h`. */
  predicate Indexed(idx: map<Hash, seq<PathRef>>, h: Hash, ref: PathRef) {
    h in idx && ref in idx[h]
  }

  /** A pass that ends without an exception records every unit it found:
      the unit's reference is listed under its hash, and a truthy manifest
      is the one indexed for that hash. */
  lemma PassFoldRecords(env: Env, group: string, cs: seq<Candidate>, init: Pass, i: nat, f: Found)
    requires init.error.None? && i < |cs| && PassFold(env, group, cs, init).error.None?
    requires SmartGetMetaSpec(env, PassFold(env, group, cs[..i], init).cache, ArgOf(cs[i]), group).result == Ok(f)
    ensures var p := PassFold(env, group, cs, init);
            && Indexed(p.resIndex, f.hash, f.ref)
            && (Truthy(f.manifest) ==> f.hash in p.manifests && p.manifests[f.hash] == f.manifest.value)
  {
    var before := PassFold(env, group, cs[..i], init);
    assert before.error.None? by {
      if before.error.Some? {
        PassFoldStops(env, group, cs, init, i);
      }
    }
    var o := SmartGetMetaSpec(env, before.cache, ArgOf(cs[i]), group);
    var mid := PassFold(env, group, cs[..i + 1], init);
    PassFoldStep(env, group, cs, init, i);
    assert f.hash !in before.manifests by {
      if f.hash in before.manifests {
        PassFoldStops(env, group, cs, init, i + 1);
      }
    }
    assert mid == Record(before, f, o.cache);
    assert Indexed(mid.resIndex, f.hash, f.ref);
    PassFoldSplit(env, group, cs, init, i + 1);
    PassFoldKeeps(env, group, cs[i + 1..], mid);
    RecordsSurvive(mid, PassFold(env, group, cs, init), group, f);
  }

  /** What a later point of the pass keeps of a recorded unit. */
  lemma RecordsSurvive(mid: Pass, p: Pass, group: string, f: Found)
    requires PassInvariant(mid, p, group) && Indexed(mid.resIndex, f.hash, f.ref)
    requires Truthy(f.manifest) ==> f.hash in mid.manifests && mid.manifests[f.hash] == f.manifest.value
    ensures Indexed(p.resIndex, f.hash, f.ref)
    ensures Truthy(f.manifest) ==> f.hash in p.manifests && p.manifests[f.hash] == f.manifest.value
  {
    var l, l' := mid.resIndex[f.hash], p.resIndex[f.hash];
    assert l <= l';
    var j :| 0 <= j < |l| && l[j] == f.ref;
    assert l'[j] == f.ref;
  }

  // ---------------------------------------------------------------------
  // reparse_resource_folder and add_resource_folder

  /** The argument of `reparse_resource_folder`: a path, or a position in
      the configured resource list. */
  datatype FolderRef = ByPath(path: string) | ByIndex(index: int)

  /** The path a reference names; a position indexes the list as Python
      does, negative positions counting from the end. */
  function ResolveRef(resources: seq<ModRes>, ref: FolderRef): (r: Result<string>)
    ensures ref.ByIndex? ==> (r.Ok? <==> -|resources| <= ref.index < |resources|)
    ensures r.Ok? && ref.ByIndex? ==> r.value == resources[if ref.index < 0 then ref.index + |resources| else ref.index].path
  {
    match ref
    case ByPath(p) => Ok(p)
    case ByIndex(k) =>
      if -|resources| <= k < |resources| then Ok(resources[if k < 0 then k + |resources| else k].path)
      else Err(IndexError)
  }

  /** The position of the first resource folder with this path, or -1. */
  function FirstWithPath(resources: seq<ModRes>, path: string): (k: int)
    ensures -1 <= k < |resources|
    ensures k >= 0 ==> resources[k].path == path && forall j :: 0 <= j < k ==> resources[j].path != path
    ensures k < 0 ==> forall j :: 0 <= j < |resources| ==> resources[j].path != path
  {
    if resources == [] then -1
    else if resources[0].path == path then 0
    else
      var k := FirstWithPath(resources[1..], path);
      if k < 0 then -1 else k + 1
  }

  /** The resource folders' paths, in order. */
  function Paths(resources: seq<ModRes>): (r: seq<string>)
    ensures |r| == |resources| && forall j :: 0 <= j < |r| ==> r[j] == resources[j].path
  {
    if resources == [] then [] else Paths(resources[..|resources| - 1]) + [resources[|resources| - 1].path]
  }

  /** `reparse_resource_folder(ref)`: resolve the folder, check it exists
      and is configured, record its mtime, prune its references, scan it,
      and run the pass over what the scan found.  The list of resource
      folders keeps its length and its paths. */
  function ReparseResourceSpec(env: Env, st: MgrState, cache: FolderCache, ref: FolderRef): (d: CachedDone)
    ensures Paths(d.st.cfg.resources) == Paths(st.cfg.resources)
  {
    match ResolveRef(st.cfg.resources, ref)
    case Err(e) => CachedDone(st, cache, Err(e))
    case Ok(p) =>
      var path := Abspath(env.cwd, p);
      var k := FirstWithPath(st.cfg.resources, path);
      if !Exists(env, path) || k < 0 then CachedDone(st, cache, Err(AssertionError))
      else
        var stamped := st.cfg.resources[k := st.cfg.resources[k].(lastModified := GetMtime(env, path).value)];
        Rescan(env, st.(cfg := st.cfg.(resources := stamped), resIndex := PruneIndex(st.resIndex, path)), cache, path)
  }

  /** The second half of `reparse_resource_folder`, once the folder's
      entry is stamped and its references pruned: scan the folder, then run
      the pass over what the scan found, with the folder as resource group. */
  function Rescan(env: Env, st: MgrState, cache: FolderCache, path: string): (d: CachedDone)
    ensures d.st.cfg == st.cfg && d.st.installed == st.installed
  {
    match EligiblePairs(env, path, env.recursionLimit)
    case Err(e) => CachedDone(st, cache, Err(e))
    case Ok(cs) =>
      var p := PassFold(env, path, cs, Pass(st.resIndex, st.manifests, cache, None));
      CachedDone(st.(resIndex := p.resIndex, manifests := p.manifests), p.cache,
                 if p.error.Some? then Err(p.error.value) else Ok(()))
  }

  /** Pruning removes no key and, from a duplicate-free list, leaves a
      duplicate-free list. */
  lemma PruneIndexNoDup(idx: map<Hash, seq<PathRef>>, group: string)
    requires NoDupIndex(idx)
    ensures NoDupIndex(PruneIndex(idx, group))
  {
    forall h | h in idx ensures NoDup(PruneIndex(idx, group)[h]) {
      var l, r := idx[h], PruneIndex(idx, group)[h];
      forall x ensures multiset(r)[x] <= 1 {
        assert multiset(r)[x] <= multiset(l)[x];
      }
    }
  }

  /** A rescan that finds the folder records the folder's mtime; whatever
      it raises, no reference list ends up holding a reference twice, and
      no manifest already indexed is replaced. */
  lemma ReparseResourceKeeps(env: Env, st: MgrState, cache: FolderCache, ref: FolderRef)
    requires NoDupIndex(st.resIndex)
    ensures var d := ReparseResourceSpec(env, st, cache, ref);
            && NoDupIndex(d.st.resIndex)
            && (forall h | h in st.manifests :: h in d.st.manifests && d.st.manifests[h] == st.manifests[h])
            && d.st.installed == st.installed && d.st.cfg.gamePath == st.cfg.gamePath
  {
    var r := ResolveRef(st.cfg.resources, ref);
    if r.Ok? {
      var path := Abspath(env.cwd, r.value);
      var k := FirstWithPath(st.cfg.resources, path);
      if Exists(env, path) && k >= 0 {
        var stamped := st.cfg.resources[k := st.cfg.resources[k].(lastModified := GetMtime(env, path).value)];
        var st1 := st.(cfg := st.cfg.(resources := stamped), resIndex := PruneIndex(st.resIndex, path));
        PruneIndexNoDup(st.resIndex, path);
        RescanKeeps(env, st1, cache, path);
      }
    }
  }

  lemma RescanKeeps(env: Env, st: MgrState, cache: FolderCache, path: string)
    requires NoDupIndex(st.resIndex)
    ensures var d := Rescan(env, st, cache, path);
            && NoDupIndex(d.st.resIndex)
            && (forall h | h in st.manifests :: h in d.st.manifests && d.st.manifests[h] == st.manifests[h])
  {
    var scan := EligiblePairs(env, path, env.recursionLimit);
    if scan.Ok? {
      PassFoldKeeps(env, path, scan.value, Pass(st.resIndex, st.manifests, cache, None));
    }
  }

  /** A successful rescan indexes every unit the scan found: the `i`-th
      candidate, looked up with the cache as the pass left it, has its
      reference listed under its hash and its truthy manifest indexed. */
  lemma RescanRecords(env: Env, st: MgrState, cache: FolderCache, path: string, i: nat, f: Found)
    requires EligiblePairs(env, path, env.recursionLimit).Ok? && Rescan(env, st, cache, path).result.Ok?
    requires var cs := EligiblePairs(env, path, env.recursionLimit).value;
             && i < |cs|
             && SmartGetMetaSpec(env, PassFold(env, path, cs[..i], Pass(st.resIndex, st.manifests, cache, None)).cache,
                                 ArgOf(cs[i]), path).result == Ok(f)
    ensures var d := Rescan(env, st, cache, path);
            && Indexed(d.st.resIndex, f.hash, f.ref)
            && (Truthy(f.manifest) ==> f.hash in d.st.manifests && d.st.manifests[f.hash] == f.manifest.value)
  {
    var cs := EligiblePairs(env, path, env.recursionLimit).value;
    PassFoldRecords(env, path, cs, Pass(st.resIndex, st.manifests, cache, None), i, f);
  }

  /** A successful `reparse_resource_folder` indexes every unit the scan of
      the resolved folder found, starting from the pruned index: each
      unit's reference is listed under its hash, and its truthy manifest is
      the one indexed for that hash. */
  lemma ReparseResourceRecords(env: Env, st: MgrState, cache: FolderCache, ref: FolderRef, i: nat, f: Found)
    requires ReparseResourceSpec(env, st, cache, ref).result.Ok? && ResolveRef(st.cfg.resources, ref).Ok?
    requires var path := Abspath(env.cwd, ResolveRef(st.cfg.resources, ref).value);
             && EligiblePairs(env, path, env.recursionLimit).Ok?
             && var cs := EligiblePairs(env, path, env.recursionLimit).value;
                && i < |cs|
                && SmartGetMetaSpec(env, PassFold(env, path, cs[..i], Pass(PruneIndex(st.resIndex, path), st.manifests, cache, None)).cache,
                                    ArgOf(cs[i]), path).result == Ok(f)
    ensures var d := ReparseResourceSpec(env, st, cache, ref);
            && Indexed(d.st.resIndex, f.hash, f.ref)
            && (Truthy(f.manifest) ==> f.hash in d.st.manifests && d.st.manifests[f.hash] == f.manifest.value)
  {
    var path := Abspath(env.cwd, ResolveRef(st.cfg.resources, ref).value);
    var k := FirstWithPath(st.cfg.resources, path);
    var stamped := st.cfg.resources[k := st.cfg.resources[k].(lastModified := GetMtime(env, path).value)];
    var st1 := st.(cfg := st.cfg.(resources := stamped), resIndex := PruneIndex(st.resIndex, path));
    assert ReparseResourceSpec(env, st, cache, ref) == Rescan(env, st1, cache, path);
    RescanRecords(env, st1, cache, path, i, f);
  }

  /** A successful rescan stamps the first configured folder with the
      resolved path with that path's mtime. */
  lemma ReparseResourceStamps(env: Env, st: MgrState, cache: FolderCache, ref: FolderRef)
    requires ReparseResourceSpec(env, st, cache, ref).result.Ok?
    ensures ResolveRef(st.cfg.resources, ref).Ok?
    ensures var path := Abspath(env.cwd, ResolveRef(st.cfg.resources, ref).value);
            var k := FirstWithPath(st.cfg.resources, path);
            && Exists(env, path) && k >= 0
            && ReparseResourceSpec(env, st, cache, ref).st.cfg.resources[k] == ModRes(path, GetMtime(env, path).value)
  {
  }

  /** Rescanning a folder whose units had manifests indexed by an earlier
      pass raises RuntimeError at the first such unit: pruning removes
      references, not manifests. */
  lemma ReparseConflictsWithEarlierPass(env: Env, st: MgrState, cache: FolderCache, path: string, cs: seq<Candidate>)
    requires Exists(env, path) && FirstWithPath(st.cfg.resources, path) >= 0 && Abspath(env.cwd, path) == path
    requires EligiblePairs(env, path, env.recursionLimit) == Ok(cs) && cs != []
    requires var o := SmartGetMetaSpec(env, cache, ArgOf(cs[0]), path);
             o.result.Ok? && o.result.value.hash in st.manifests
    ensures ReparseResourceSpec(env, st, cache, ByPath(path)).result == Err(RuntimeError)
  {
    var init := Pass(PruneIndex(st.resIndex, path), st.manifests, cache, None);
    assert cs[..0] == [];
    PassAborts(env, path, cs, init, 0);
  }

  /** `add_resource_folder(path, skip_existing)` */
  function AddResourceFolderSpec(env: Env, st: MgrState, cache: FolderCache, path: string, skipExisting: bool): CachedDone {
    if !Exists(env, path) || !IsDir(env, path) then CachedDone(st, cache, Err(AssertionError))
    else
      var p := Abspath(env.cwd, path);
      if FirstWithPath(st.cfg.resources, p) >= 0 then
        CachedDone(st, cache, if skipExisting then Ok(()) else Err(AssertionError))
      else
        match GetMtime(env, p)
        case Err(e) => CachedDone(st, cache, Err(e))
        case Ok(mt) =>
          ReparseResourceSpec(env, st.(cfg := st.cfg.(resources := st.cfg.resources + [ModRes(p, mt)])), cache, ByPath(p))
  }

  /** Adding a folder already configured changes nothing; adding a new one
      appends exactly one entry with its absolute path, whether or not the
      rescan then raises; so the configured paths stay distinct. */
  lemma AddResourceFolderAppends(env: Env, st: MgrState, cache: FolderCache, path: string, skipExisting: bool)
    requires Exists(env, path) && IsDir(env, path)
    ensures var p := Abspath(env.cwd, path);
            var d := AddResourceFolderSpec(env, st, cache, path, skipExisting);
            && (p in Paths(st.cfg.resources) ==> d == CachedDone(st, cache, if skipExisting then Ok(()) else Err(AssertionError)))
            && (p !in Paths(st.cfg.resources) && GetMtime(env, p).Ok? ==> Paths(d.st.cfg.resources) == Paths(st.cfg.resources) + [p])
  {
    var p := Abspath(env.cwd, path);
    var rs := st.cfg.resources;
    if p in Paths(rs) {
      var j :| 0 <= j < |rs| && Paths(rs)[j] == p;
    } else if GetMtime(env, p).Ok? {
      var rs' := rs + [ModRes(p, GetMtime(env, p).value)];
      assert FirstWithPath(rs, p) < 0;
      assert AddResourceFolderSpec(env, st, cache, path, skipExisting)
             == ReparseResourceSpec(env, st.(cfg := st.cfg.(resources := rs')), cache, ByPath(p));
      assert Paths(rs') == Paths(rs) + [p];
    }
  }

  lemma AddResourceFolderDistinct(env: Env, st: MgrState, cache: FolderCache, path: string, skipExisting: bool)
    requires forall i, j :: 0 <= i < j < |st.cfg.resources| ==> st.cfg.resources[i].path != st.cfg.resources[j].path
    ensures var rs := AddResourceFolderSpec(env, st, cache, path, skipExisting).st.cfg.resources;
            forall i, j :: 0 <= i < j < |rs| ==> rs[i].path != rs[j].path
  {
    var p := Abspath(env.cwd, path);
    var d := AddResourceFolderSpec(env, st, cache, path, skipExisting);
    if Exists(env, path) && IsDir(env, path) && p !in Paths(st.cfg.resources) && GetMtime(env, p).Ok? {
      AddResourceFolderAppends(env, st, cache, path, skipExisting);
      DistinctAppend(st.cfg.resources, d.st.cfg.resources, p);
    } else if Exists(env, path) && IsDir(env, path) && p in Paths(st.cfg.resources) {
      AddResourceFolderAppends(env, st, cache, path, skipExisting);
    }
  }

  lemma DistinctAppend(rs: seq<ModRes>, rs': seq<ModRes>, p: string)
    requires forall i, j :: 0 <= i < j < |rs| ==> rs[i].path != rs[j].path
    requires p !in Paths(rs) && Paths(rs') == Paths(rs) + [p]
    ensures forall i, j :: 0 <= i < j < |rs'| ==> rs'[i].path != rs'[j].path
  {
    forall i, j | 0 <= i < j < |rs'| ensures rs'[i].path != rs'[j].path {
      assert Paths(rs')[i] == rs'[i].path && Paths(rs')[j] == rs'[j].path;
      if j < |rs| {
        assert Paths(rs)[i] == rs[i].path && Paths(rs)[j] == rs[j].path;
      } else {
        assert Paths(rs)[i] == rs'[i].path;
      }
    }
  }

  // ---------------------------------------------------------------------
  // add_resource

  /** When `shutil.copy(src, dst)` raises: the source is not a regular file,
      or `dst` is not a directory and its parent directory does not exist. */
  function CopyCheck(env: Env, src: string, dst: string): Result<()> {
    if !IsFile(env, src) then Err(OSError)
    else if IsDir(env, dst) || Dirname(dst) == "" || IsDir(env, Dirname(dst)) then Ok(())
    else Err(OSError)
  }

  /** `add_resource(path, toResource)`.  The destination of the copy is the
      hash under the folder's BASENAME, relative to the working directory.
      The hash's list is created and a truthy manifest stored before the
      duplicate check, so both stay when it raises. */
  function AddResourceSpec(env: Env, st: MgrState, cache: FolderCache, path: string, toResource: Option<string>): CachedDone {
    if toResource.None? && st.cfg.resources == [] then CachedDone(st, cache, Err(RuntimeError))
    else AddTo(env, st, cache, path, Abspath(env.cwd, if toResource.Some? then toResource.value else st.cfg.resources[0].path))
  }

  /** The rest of `add_resource` once the folder `to` is resolved. */
  function AddTo(env: Env, st: MgrState, cache: FolderCache, path: string, to: string): CachedDone {
    if !Exists(env, to) || !Exists(env, path) then CachedDone(st, cache, Err(RuntimeError))
    else
      var o := SmartGetMetaSpec(env, cache, PathArg(path), to);
      match o.result
      case Err(e) => CachedDone(st, o.cache, Err(e))
      case Ok(f) => AddFound(env, st, o.cache, path, to, f)
  }

  /** The rest of `add_resource` once `smart_get_meta` found the unit `f`. */
  function AddFound(env: Env, st: MgrState, cache: FolderCache, path: string, to: string, f: Found): CachedDone {
    match CopyCheck(env, path, Join(Basename(to), f.hash))
    case Err(e) => CachedDone(st, cache, Err(e))
    case Ok(_) =>
      var refs := if f.hash in st.resIndex then st.resIndex[f.hash] else [];
      var st1 := st.(resIndex := st.resIndex[f.hash := refs],
                     manifests := if Truthy(f.manifest) then st.manifests[f.hash := f.manifest.value] else st.manifests);
      if f.ref in refs then CachedDone(st1, cache, Err(RuntimeError))
      else CachedDone(st1.(resIndex := st.resIndex[f.hash := refs + [f.ref]]), cache, Ok(()))
  }

  /** Only a zip or rar file can be added: a directory unit fails at the
      copy, any other file is rejected by `smart_get_meta`. */
  lemma AddResourceOnlyArchives(env: Env, st: MgrState, cache: FolderCache, path: string, toResource: Option<string>)
    requires AddResourceSpec(env, st, cache, path, toResource).result.Ok?
    ensures IsFile(env, path) && (EndsWith(path, ".zip") || EndsWith(path, ".rar"))
  {
    var to := Abspath(env.cwd, if toResource.Some? then toResource.value else st.cfg.resources[0].path);
    AddToOnlyArchives(env, st, cache, path, to);
  }

  lemma AddToOnlyArchives(env: Env, st: MgrState, cache: FolderCache, path: string, to: string)
    requires AddTo(env, st, cache, path, to).result.Ok?
    ensures IsFile(env, path) && (EndsWith(path, ".zip") || EndsWith(path, ".rar"))
  {
    SmartGetMetaDispatch(env, cache, PathArg(path), to);
  }

  /** A successful add appends the unit's reference, which the hash's list
      did not hold, under the unit's hash, and nothing else of the resource
      index changes. */
  lemma AddResourceAppends(env: Env, st: MgrState, cache: FolderCache, path: string, toResource: Option<string>)
    requires AddResourceSpec(env, st, cache, path, toResource).result.Ok?
    ensures AppendsOneRef(st.resIndex, AddResourceSpec(env, st, cache, path, toResource).st.resIndex)
  {
    var to := Abspath(env.cwd, if toResource.Some? then toResource.value else st.cfg.resources[0].path);
    assert AddResourceSpec(env, st, cache, path, toResource) == AddTo(env, st, cache, path, to);
    var o := SmartGetMetaSpec(env, cache, PathArg(path), to);
    AddToAppends(env, st, cache, path, to, o);
    var f := o.result.value;
    var refs := if f.hash in st.resIndex then st.resIndex[f.hash] else [];
    AppendsOneRefIntro(st.resIndex, AddTo(env, st, cache, path, to).st.resIndex, f.hash, f.ref);
  }

  /** What `add_resource` does once the folder and the file exist and the
      unit `f` is found.  The copy goes to the hash under the folder's
      basename, relative to the working directory, and only its failure
      stops the add, with nothing changed.  After the copy, a truthy
      manifest is indexed whatever follows; a reference the hash's list
      already holds then raises RuntimeError, leaving the list, created
      empty if the hash had none, in the index. */
  lemma AddResourceEffects(env: Env, st: MgrState, cache: FolderCache, path: string, toResource: Option<string>)
    requires toResource.Some? || st.cfg.resources != []
    ensures var to := Abspath(env.cwd, if toResource.Some? then toResource.value else st.cfg.resources[0].path);
            var d := AddResourceSpec(env, st, cache, path, toResource);
            var o := SmartGetMetaSpec(env, cache, PathArg(path), to);
            Exists(env, to) && Exists(env, path) && o.result.Ok? ==>
              var f := o.result.value;
              var refs := if f.hash in st.resIndex then st.resIndex[f.hash] else [];
              var copy := CopyCheck(env, path, Join(Basename(to), f.hash));
              && (copy.Err? ==> d == CachedDone(st, o.cache, Err(OSError)))
              && (copy.Ok? ==> d.st.manifests == if Truthy(f.manifest) then st.manifests[f.hash := f.manifest.value] else st.manifests)
              && (copy.Ok? && f.ref in refs ==> d.result == Err(RuntimeError) && d.st.resIndex == st.resIndex[f.hash := refs])
              && (copy.Ok? && f.ref !in refs ==> d.result == Ok(()))
  {
    var to := Abspath(env.cwd, if toResource.Some? then toResource.value else st.cfg.resources[0].path);
    var o := SmartGetMetaSpec(env, cache, PathArg(path), to);
    if Exists(env, to) && Exists(env, path) && o.result.Ok? {
      assert AddResourceSpec(env, st, cache, path, toResource) == AddTo(env, st, cache, path, to);
      AddToFound(env, st, cache, path, to, o);
      AddFoundEffects(env, st, o.cache, path, to, o.result.value);
    }
  }

  lemma AddFoundEffects(env: Env, st: MgrState, cache: FolderCache, path: string, to: string, f: Found)
    ensures var d := AddFound(env, st, cache, path, to, f);
            var refs := if f.hash in st.resIndex then st.resIndex[f.hash] else [];
            var copy := CopyCheck(env, path, Join(Basename(to), f.hash));
            && (copy.Err? ==> d == CachedDone(st, cache, Err(OSError)))
            && (copy.Ok? ==> d.st.manifests == if Truthy(f.manifest) then st.manifests[f.hash := f.manifest.value] else st.manifests)
            && (copy.Ok? && f.ref in refs ==> d.result == Err(RuntimeError) && d.st.resIndex == st.resIndex[f.hash := refs])
            && (copy.Ok? && f.ref !in refs ==> d.result == Ok(()))
  {
  }

  /** `after` is `before` with one new reference appended under one hash. */
  ghost predicate AppendsOneRef(before: map<Hash, seq<PathRef>>, after: map<Hash, seq<PathRef>>) {
    exists h, ref ::
      && after == before[h := (if h in before then before[h] else []) + [ref]]
      && (h in before ==> ref !in before[h])
  }

  lemma AppendsOneRefIntro(before: map<Hash, seq<PathRef>>, after: map<Hash, seq<PathRef>>, h: Hash, ref: PathRef)
    requires after == before[h := (if h in before then before[h] else []) + [ref]]
    requires h in before ==> ref !in before[h]
    ensures AppendsOneRef(before, after)
  {
  }

  lemma AddToAppends(env: Env, st: MgrState, cache: FolderCache, path: string, to: string, o: MetaOutcome)
    requires o == SmartGetMetaSpec(env, cache, PathArg(path), to)
    requires AddTo(env, st, cache, path, to).result.Ok?
    ensures o.result.Ok?
    ensures var f := o.result.value;
            var refs := if f.hash in st.resIndex then st.resIndex[f.hash] else [];
            && AddTo(env, st, cache, path, to).st.resIndex == st.resIndex[f.hash := refs + [f.ref]]
            && f.ref !in refs
  {
    AddToFound(env, st, cache, path, to, o);
    AddFoundAppends(env, st, o.cache, path, to, o.result.value);
  }

  /** Once the unit is found, `add_resource` goes on as AddFound says. */
  lemma AddToFound(env: Env, st: MgrState, cache: FolderCache, path: string, to: string, o: MetaOutcome)
    requires o == SmartGetMetaSpec(env, cache, PathArg(path), to)
    requires AddTo(env, st, cache, path, to).result.Ok? || (Exists(env, to) && Exists(env, path) && o.result.Ok?)
    ensures Exists(env, to) && Exists(env, path) && o.result.Ok?
    ensures AddTo(env, st, cache, path, to) == AddFound(env, st, o.cache, path, to, o.result.value)
  {
  }

  lemma AddFoundAppends(env: Env, st: MgrState, cache: FolderCache, path: string, to: string, f: Found)
    requires AddFound(env, st, cache, path, to, f).result.Ok?
    ensures var refs := if f.hash in st.resIndex then st.resIndex[f.hash] else [];
            && AddFound(env, st, cache, path, to, f).st.resIndex == st.resIndex[f.hash := refs + [f.ref]]
            && f.ref !in refs
  {
  }

  /** Whatever happens, no reference list ends up holding a reference twice. */
  lemma AddResourceNoDup(env: Env, st: MgrState, cache: FolderCache, path: string, toResource: Option<string>)
    requires NoDupIndex(st.resIndex)
    ensures NoDupIndex(AddResourceSpec(env, st, cache, path, toResource).st.resIndex)
  {
    if !(toResource.None? && st.cfg.resources == []) {
      var to := Abspath(env.cwd, if toResource.Some? then toResource.value else st.cfg.resources[0].path);
      var o := SmartGetMetaSpec(env, cache, PathArg(path), to);
      if Exists(env, to) && Exists(env, path) && o.result.Ok? {
        AddToFound(env, st, cache, path, to, o);
        AddFoundNoDup(env, st, o.cache, path, to, o.result.value);
      }
    }
  }

  lemma AddFoundNoDup(env: Env, st: MgrState, cache: FolderCache, path: string, to: string, f: Found)
    requires NoDupIndex(st.resIndex)
    ensures NoDupIndex(AddFound(env, st, cache, path, to, f).st.resIndex)
  {
    if CopyCheck(env, path, Join(Basename(to), f.hash)).Ok? {
      var refs := if f.hash in st.resIndex then st.resIndex[f.hash] else [];
      var d := AddFound(env, st, cache, path, to, f);
      if f.ref in refs {
        assert d.st.resIndex == st.resIndex[f.hash := refs];
        NoDupPut(st.resIndex, f.hash, refs);
      } else {
        assert d.st.resIndex == st.resIndex[f.hash := refs + [f.ref]];
        NoDupSnoc(refs, f.ref);
        NoDupPut(st.resIndex, f.hash, refs + [f.ref]);
      }
    }
  }

  lemma NoDupSnoc(l: seq<PathRef>, x: PathRef)
    requires NoDup(l) && x !in l
    ensures NoDup(l + [x])
  {
    assert multiset(l + [x]) == multiset(l) + multiset{x};
  }

  lemma NoDupPut(idx: map<Hash, seq<PathRef>>, h: Hash, l: seq<PathRef>)
    requires NoDupIndex(idx) && NoDup(l)
    ensures NoDupIndex(idx[h := l])
  {
  }

  // ---------------------------------------------------------------------
  // The staleness checks of __post_init__ and __load_mod_resource

  /** The install-index half of `__post_init__`: rebuild the install index
      when the game path changed since the last check; otherwise keep the
      index as loaded. */
  function InstallCheckSpec(env: Env, st: MgrState): Done {
    match GetMtime(env, st.cfg.gamePath)
    case Err(e) => Done(st, Err(e))
    case Ok(mt) => if st.cfg.lastInstallCheck < mt then ReparseInstalledSpec(env, st) else Done(st, Ok(()))
  }

  /** After a successful check the recorded check time is not older than
      the game path's mtime, and an up-to-date index is left alone. */
  lemma InstallCheckUpToDate(env: Env, st: MgrState)
    ensures var d := InstallCheckSpec(env, st);
            && (d.result.Ok? ==> GetMtime(env, st.cfg.gamePath).Ok?
                                 && d.st.cfg.lastInstallCheck >= GetMtime(env, st.cfg.gamePath).value)
            && (GetMtime(env, st.cfg.gamePath).Ok? && st.cfg.lastInstallCheck >= GetMtime(env, st.cfg.gamePath).value ==> d.st == st)
  {
  }

  /** One iteration of the loop of `__load_mod_resource`: a folder whose
      mtime is newer than the recorded one is rescanned, by path. */
  function ResourceCheck(env: Env, st: MgrState, cache: FolderCache, i: nat): (d: CachedDone)
    requires i < |st.cfg.resources|
    ensures Paths(d.st.cfg.resources) == Paths(st.cfg.resources)
  {
    var res := st.cfg.resources[i];
    match GetMtime(env, res.path)
    case Err(e) => CachedDone(st, cache, Err(e))
    case Ok(mt) =>
      if mt > res.lastModified then ReparseResourceSpec(env, st, cache, ByPath(res.path))
      else CachedDone(st, cache, Ok(()))
  }

  /** The loop from position `i` on; the first exception ends it. */
  function ResourceCheckFrom(env: Env, st: MgrState, cache: FolderCache, i: nat): CachedDone
    decreases |st.cfg.resources| - i
  {
    if i >= |st.cfg.resources| then CachedDone(st, cache, Ok(()))
    else
      var d := ResourceCheck(env, st, cache, i);
      if d.result.Err? then d else ResourceCheckFrom(env, d.st, d.cache, i + 1)
  }

  lemma ResourceCheckOneKeeps(env: Env, st: MgrState, cache: FolderCache, i: nat)
    requires i < |st.cfg.resources| && NoDupIndex(st.resIndex)
    ensures var d := ResourceCheck(env, st, cache, i);
            d.st.installed == st.installed && NoDupIndex(d.st.resIndex)
  {
    ReparseResourceKeeps(env, st, cache, ByPath(st.cfg.resources[i].path));
  }

  /** The check never adds, removes or reorders resource folders, never
      touches the install index, and keeps reference lists duplicate-free. */
  lemma {:induction false} ResourceCheckKeeps(env: Env, st: MgrState, cache: FolderCache, i: nat)
    requires NoDupIndex(st.resIndex)
    ensures var d := ResourceCheckFrom(env, st, cache, i);
            Paths(d.st.cfg.resources) == Paths(st.cfg.resources) && d.st.installed == st.installed
            && NoDupIndex(d.st.resIndex)
    decreases |st.cfg.resources| - i
  {
    if i < |st.cfg.resources| {
      var d := ResourceCheck(env, st, cache, i);
      ResourceCheckOneKeeps(env, st, cache, i);
      if d.result.Ok? {
        ResourceCheckKeeps(env, d.st, d.cache, i + 1);
        assert ResourceCheckFrom(env, st, cache, i) == ResourceCheckFrom(env, d.st, d.cache, i + 1);
      }
    }
  }

  /** What `__post_init__` does once the indexes are loaded: the install
      check, then the resource check. */
  function PostInitSpec(env: Env, st: MgrState, cache: FolderCache): CachedDone {
    var d := InstallCheckSpec(env, st);
    if d.result.Err? then CachedDone(d.st, cache, d.result)
    else ResourceCheckFrom(env, d.st, cache, 0)
  }

  /** Start-up never adds, removes or reorders resource folders, and keeps
      reference lists duplicate-free. */
  lemma PostInitKeeps(env: Env, st: MgrState, cache: FolderCache)
    requires NoDupIndex(st.resIndex)
    ensures var d := PostInitSpec(env, st, cache);
            Paths(d.st.cfg.resources) == Paths(st.cfg.resources) && NoDupIndex(d.st.resIndex)
  {
    var d := InstallCheckSpec(env, st);
    if GetMtime(env, st.cfg.gamePath).Ok? {
      ReparseInstalledResets(env, st);
    }
    if d.result.Ok? {
      ResourceCheckKeeps(env, d.st, cache, 0);
    }
  }

  // ---------------------------------------------------------------------
  // The manager object

  class H2MM {
    var cfg: Cfg
    var resIndex: map<Hash, seq<PathRef>>
    var installed: seq<Installed>
    var manifests: map<Hash, Manifest>

    function State(): MgrState
      reads this
    {
      MgrState(cfg, resIndex, installed, manifests)
    }

    /** The dataclass constructor: the three indexes start empty. */
    constructor (cfg: Cfg)
      ensures State() == MgrState(cfg, map[], [], map[])
    {
      this.cfg := cfg;
      resIndex := map[];
      installed := [];
      manifests := map[];
    }

    /** `reparse_installed_mods` */
    method ReparseInstalledMods(env: Env) returns (r: Result<()>)
      modifies this
      ensures Done(State(), r) == ReparseInstalledSpec(env, old(State()))
    {
      var mt := GetMtime(env, cfg.gamePath);
      if mt.Err? {
        return Err(mt.error);
      }
      var dir := GameDataDir(cfg);
      cfg := cfg.(lastInstallCheck := mt.value);
      installed := [];
      var names := Listdir(env, dir);
      if names.Err? {
        return Err(names.error);
      }
      var i := 0;
      while i < |names.value|
        invariant i <= |names.value|
        invariant InstallFold(env, dir, names.value[..i]) == InstallRun(installed, None)
        invariant cfg == old(cfg).(lastInstallCheck := mt.value)
        invariant resIndex == old(resIndex) && manifests == old(manifests)
      {
        var file := names.value[i];
        InstallFoldStep(env, dir, names.value, i);
        if IsPatchFile(env, dir, file) {
          var h := CalculateHash(env, dir, file);
          if h.Err? {
            InstallFoldStops(env, dir, names.value, i + 1);
            return Err(h.error);
          }
          if h.value in Hashes(installed) {
            InstallFoldStops(env, dir, names.value, i + 1);
            return Err(RuntimeError);
          }
          installed := installed + [Installed(h.value, file)];
        }
        i := i + 1;
      }
      assert names.value[..i] == names.value;
      r := Ok(());
    }

    /** `list_installed_mods` */
    method ListInstalledMods() returns (r: Result<seq<Row>>)
      ensures r == ListRows(installed, manifests, resIndex)
    {
      var table: seq<Row> := [];
      var i := 0;
      while i < |installed|
        invariant i <= |installed|
        invariant ListRows(installed[..i], manifests, resIndex) == Ok(table)
      {
        var e := installed[i];
        assert installed[..i + 1][..i] == installed[..i];
        var row := RowFor(e, manifests, resIndex);
        if row.Err? {
          ListRowsStops(installed, manifests, resIndex, i + 1);
          return Err(row.error);
        }
        table := table + [row.value];
        i := i + 1;
      }
      assert installed[..i] == installed;
      r := Ok(table);
    }

    /** `prune_resource_folder(group)` */
    method Prune(group: string)
      modifies this
      ensures State() == old(State()).(resIndex := PruneIndex(old(resIndex), group))
    {
      var todo := resIndex.Keys;
      while todo != {}
        invariant todo <= old(resIndex).Keys && resIndex.Keys == old(resIndex).Keys
        invariant forall h | h in old(resIndex) ::
                    resIndex[h] == if h in todo then old(resIndex)[h] else PruneFrom(old(resIndex)[h], 0, group)
        invariant cfg == old(cfg) && installed == old(installed) && manifests == old(manifests)
        decreases todo
      {
        var h :| h in todo;
        var pruned := PruneList(resIndex[h], group);
        resIndex := resIndex[h := pruned];
        todo := todo - {h};
      }
    }
    /** The loop of `reparse_resource_folder` over the eligible pairs, with
        `group` as resource group. */
    method RecordCandidates(env: Env, cache: Cache<(), Meta>, group: string, cs: seq<Candidate>) returns (r: Result<()>)
      modifies this, cache
      ensures var p := PassFold(env, group, cs, Pass(old(resIndex), old(manifests), old(cache.State()), None));
              && resIndex == p.resIndex && manifests == p.manifests && cache.State() == p.cache
              && r == (if p.error.Some? then Err(p.error.value) else Ok(()))
      ensures cfg == old(cfg) && installed == old(installed)
    {
      ghost var init := Pass(resIndex, manifests, cache.State(), None);
      var i := 0;
      while i < |cs|
        invariant i <= |cs|
        invariant PassFold(env, group, cs[..i], init) == Pass(resIndex, manifests, cache.State(), None)
        invariant cfg == old(cfg) && installed == old(installed)
      {
        PassFoldStep(env, group, cs, init, i);
        r := RecordCandidate(env, cache, group, cs[i]);
        if r.Err? {
          PassFoldStops(env, group, cs, init, i + 1);
          return r;
        }
        i := i + 1;
      }
      assert cs[..i] == cs;
      r := Ok(());
    }

    /** One iteration of that loop. */
    method RecordCandidate(env: Env, cache: Cache<(), Meta>, group: string, c: Candidate) returns (r: Result<()>)
      modifies this, cache
      ensures var p := PassStep(env, group, Pass(old(resIndex), old(manifests), old(cache.State()), None), c);
              && resIndex == p.resIndex && manifests == p.manifests && cache.State() == p.cache
              && r == (if p.error.Some? then Err(p.error.value) else Ok(()))
      ensures cfg == old(cfg) && installed == old(installed)
    {
      ghost var acc := Pass(resIndex, manifests, cache.State(), None);
      var found := SmartGetMeta(env, cache, ArgOf(c), group);
      PassStepOn(env, group, acc, c, MetaOutcome(cache.State(), found));
      r := ApplyLookup(acc, cache.State(), found);
    }

    /** The iteration once `smart_get_meta` returned or raised. */
    method ApplyLookup(ghost acc: Pass, ghost cacheState: FolderCache, found: Result<Found>) returns (r: Result<()>)
      requires acc.resIndex == resIndex && acc.manifests == manifests && acc.error.None?
      modifies this
      ensures var p := PassOn(acc, MetaOutcome(cacheState, found));
              && resIndex == p.resIndex && manifests == p.manifests && cacheState == p.cache
              && r == (if p.error.Some? then Err(p.error.value) else Ok(()))
      ensures cfg == old(cfg) && installed == old(installed)
    {
      if found.Err? {
        return if Skipped(found.error) then Ok(()) else Err(found.error);
      }
      var f := found.value;
      if f.hash in manifests {
        return Err(RuntimeError);
      }
      if Truthy(f.manifest) {
        manifests := manifests[f.hash := f.manifest.value];
      }
      var refs := if f.hash in resIndex then resIndex[f.hash] else [];
      resIndex := resIndex[f.hash := refs];
      if f.ref !in refs {
        resIndex := resIndex[f.hash := refs + [f.ref]];
      }
      r := Ok(());
    }

    /** `reparse_resource_folder(ref)` */
    method ReparseResourceFolder(env: Env, cache: Cache<(), Meta>, ref: FolderRef) returns (r: Result<()>)
      modifies this, cache
      ensures CachedDone(State(), cache.State(), r) == ReparseResourceSpec(env, old(State()), old(cache.State()), ref)
    {
      var p := ResolveRef(cfg.resources, ref);
      if p.Err? {
        return Err(p.error);
      }
      var path := Abspath(env.cwd, p.value);
      if !Exists(env, path) {
        return Err(AssertionError);
      }
      var k := FirstWithPath(cfg.resources, path);
      if k < 0 {
        return Err(AssertionError);
      }
      var mt := GetMtime(env, path);
      cfg := cfg.(resources := cfg.resources[k := cfg.resources[k].(lastModified := mt.value)]);
      Prune(path);
      ghost var st1 := State();
      ghost var cache1 := cache.State();
      var cs := GetAllEligiblePairs(env, path, env.recursionLimit);
      if cs.Err? {
        return Err(cs.error);
      }
      r := RecordCandidates(env, cache, path, cs.value);
      assert CachedDone(State(), cache.State(), r) == Rescan(env, st1, cache1, path);
    }

    /** `add_resource_folder(path, skip_existing)` */
    method AddResourceFolder(env: Env, cache: Cache<(), Meta>, path: string, skipExisting: bool) returns (r: Result<()>)
      modifies this, cache
      ensures CachedDone(State(), cache.State(), r) == AddResourceFolderSpec(env, old(State()), old(cache.State()), path, skipExisting)
    {
      if !Exists(env, path) || !IsDir(env, path) {
        return Err(AssertionError);
      }
      var p := Abspath(env.cwd, path);
      if FirstWithPath(cfg.resources, p) >= 0 {
        return if skipExisting then Ok(()) else Err(AssertionError);
      }
      var mt := GetMtime(env, p);
      if mt.Err? {
        return Err(mt.error);
      }
      cfg := cfg.(resources := cfg.resources + [ModRes(p, mt.value)]);
      r := ReparseResourceFolder(env, cache, ByPath(p));
    }

    /** `add_resource(path, toResource)` */
    method AddResource(env: Env, cache: Cache<(), Meta>, path: string, toResource: Option<string>) returns (r: Result<()>)
      modifies this, cache
      ensures CachedDone(State(), cache.State(), r) == AddResourceSpec(env, old(State()), old(cache.State()), path, toResource)
    {
      var to: string;
      if toResource.None? {
        if cfg.resources == [] {
          return Err(RuntimeError);
        }
        to := cfg.resources[0].path;
      } else {
        to := toResource.value;
      }
      to := Abspath(env.cwd, to);
      assert AddResourceSpec(env, old(State()), old(cache.State()), path, toResource)
             == AddTo(env, old(State()), old(cache.State()), path, to);
      if !Exists(env, to) || !Exists(env, path) {
        return Err(RuntimeError);
      }
      var found := SmartGetMeta(env, cache, PathArg(path), to);
      if found.Err? {
        return Err(found.error);
      }
      var f := found.value;
      AddToFound(env, old(State()), old(cache.State()), path, to, MetaOutcome(cache.State(), found));
      r := StoreFound(env, cache.State(), path, to, f);
    }

    /** The rest of `add_resource`: copy the unit, then index it. */
    method StoreFound(env: Env, ghost cacheState: FolderCache, path: string, to: string, f: Found) returns (r: Result<()>)
      modifies this
      ensures CachedDone(State(), cacheState, r) == AddFound(env, old(State()), cacheState, path, to, f)
    {
      var copied := CopyCheck(env, path, Join(Basename(to), f.hash));
      if copied.Err? {
        return Err(copied.error);
      }
      ghost var refs := if f.hash in resIndex then resIndex[f.hash] else [];
      ghost var idx := resIndex;
      if f.hash !in resIndex {
        resIndex := resIndex[f.hash := []];
      }
      assert resIndex == idx[f.hash := refs];
      if Truthy(f.manifest) {
        manifests := manifests[f.hash := f.manifest.value];
      }
      if f.ref in resIndex[f.hash] {
        return Err(RuntimeError);
      }
      resIndex := resIndex[f.hash := resIndex[f.hash] + [f.ref]];
      r := Ok(());
    }

    /** The install-index half of `__post_init__`. */
    method CheckInstallIndex(env: Env) returns (r: Result<()>)
      modifies this
      ensures Done(State(), r) == InstallCheckSpec(env, old(State()))
    {
      var mt := GetMtime(env, cfg.gamePath);
      if mt.Err? {
        return Err(mt.error);
      }
      if cfg.lastInstallCheck < mt.value {
        r := ReparseInstalledMods(env);
      } else {
        r := Ok(());
      }
    }

    /** `__post_init__`, with the loading of the index files left out. */
    method PostInit(env: Env, cache: Cache<(), Meta>) returns (r: Result<()>)
      modifies this, cache
      ensures CachedDone(State(), cache.State(), r) == PostInitSpec(env, old(State()), old(cache.State()))
    {
      r := CheckInstallIndex(env);
      if r.Err? {
        return r;
      }
      r := CheckResources(env, cache);
    }

    /** The loop of `__load_mod_resource` over the configured folders. */
    method CheckResources(env: Env, cache: Cache<(), Meta>) returns (r: Result<()>)
      modifies this, cache
      ensures CachedDone(State(), cache.State(), r) == ResourceCheckFrom(env, old(State()), old(cache.State()), 0)
    {
      var i := 0;
      while i < |cfg.resources|
        invariant ResourceCheckFrom(env, State(), cache.State(), i) == ResourceCheckFrom(env, old(State()), old(cache.State()), 0)
        decreases |cfg.resources| - i
      {
        r := CheckResource(env, cache, i);
        if r.Err? {
          return;
        }
        i := i + 1;
      }
      r := Ok(());
    }

    /** One round of the resource check loop. */
    method CheckResource(env: Env, cache: Cache<(), Meta>, i: nat) returns (r: Result<()>)
      requires i < |cfg.resources|
      modifies this, cache
      ensures CachedDone(State(), cache.State(), r) == ResourceCheck(env, old(State()), old(cache.State()), i)
    {
      var res := cfg.resources[i];
      var mt := GetMtime(env, res.path);
      if mt.Err? {
        return Err(mt.error);
      }
      r := Ok(());
      if mt.value > res.lastModified {
        r := ReparseResourceFolder(env, cache, ByPath(res.path));
      }
    }
  }

  /** An entry whose row raises ends the table. */
  lemma {:induction false} ListRowsStops(installed: seq<Installed>, manifests: map<Hash, Manifest>,
                                         resIndex: map<Hash, seq<PathRef>>, k: nat)
    requires k <= |installed| && ListRows(installed[..k], manifests, resIndex).Err?
    ensures ListRows(installed, manifests, resIndex) == ListRows(installed[..k], manifests, resIndex)
    decreases |installed| - k
  {
    if k < |installed| {
      assert installed[..k + 1][..k] == installed[..k];
      ListRowsStops(installed, manifests, resIndex, k + 1);
    } else {
      assert installed[..k] == installed;
    }
  }

  /** The inner loop of `prune_resource_folder` over one reference list. */
  method PruneList(l: seq<PathRef>, group: string) returns (r: seq<PathRef>)
    ensures r == PruneFrom(l, 0, group)
  {
    r := l;
    var i := 0;
    while i < |r|
      invariant PruneFrom(r, i, group) == PruneFrom(l, 0, group)
      decreases |r| - i
    {
      if r[i].resourceGroup == group {
        r := RemoveFirst(r, r[i]);
      }
      i := i + 1;
    }
  }
}
