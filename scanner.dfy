/** Listing the candidate mod units of a resource folder: the units inside
    one archive (`_recursive_get_eligible_for_zip`) and the units of a
    directory tree, its archives included (`get_all_eligible_pairs`). */
module Scanner {
  import opened Wrappers
  import opened PyStr
  import opened PyPath
  import opened Model
  import opened Environment
  import opened Seqs
  import opened Selection

  /** A candidate unit: a directory, the one-tuple `(path,)`, or a folder
      of an archive, the pair `(archive, folder)`. */
  datatype Candidate = DirCandidate(path: string) | ArchiveCandidate(archive: string, folder: string)

  /** Where a candidate lives on disk: the directory or the archive file. */
  function Loc(c: Candidate): string {
    if c.DirCandidate? then c.path else c.archive
  }

  // ---------------------------------------------------------------------
  // Inside one archive

  /** An archive entry is taken for a folder when a directory of that name
      exists relative to the working directory, or when it ends with "/". */
  predicate IsFolderEntry(env: Env, n: string) {
    IsDir(env, n) || EndsWith(n, "/")
  }

  function FolderEntryTest(env: Env): string -> bool {
    n => IsFolderEntry(env, n)
  }

  function FileEntryTest(env: Env): string -> bool {
    n => !IsFolderEntry(env, n)
  }

  /** The folders considered: the root "" first, then the folder entries. */
  function ArchiveFolders(env: Env, names: seq<string>): seq<string> {
    [""] + Filter(names, FolderEntryTest(env))
  }

  /** The entries that are not folders. */
  function ArchiveFiles(env: Env, names: seq<string>): seq<string> {
    Filter(names, FileEntryTest(env))
  }

  /** Every entry is classified exactly once, the root is always the first
      folder, and an entry ending with "/" is always a folder. */
  lemma ArchiveEntryClassification(env: Env, names: seq<string>)
    ensures ArchiveFolders(env, names)[0] == ""
    ensures forall n | n in names ::
              (n in ArchiveFolders(env, names)[1..] <==> IsFolderEntry(env, n))
              && (n in ArchiveFiles(env, names) <==> !IsFolderEntry(env, n))
    ensures forall n | n in names && EndsWith(n, "/") ::
              n in ArchiveFolders(env, names) && n !in ArchiveFiles(env, names)
  {
    FilterMembers(names, FolderEntryTest(env));
    FilterMembers(names, FileEntryTest(env));
    assert ArchiveFolders(env, names)[1..] == Filter(names, FolderEntryTest(env));
  }

  /** A file sits directly in `folder` when its dirname is the folder, with
      or without the trailing "/". */
  predicate DirectlyIn(folder: string, f: string) {
    Dirname(f) == folder || Dirname(f) + "/" == folder
  }

  function DirectlyInTest(folder: string): string -> bool {
    f => DirectlyIn(folder, f)
  }

  function Basenames(files: seq<string>): (r: seq<string>)
    ensures |r| == |files|
    ensures forall i :: 0 <= i < |files| ==> r[i] == Basename(files[i])
  {
    if files == [] then [] else Basenames(files[..|files| - 1]) + [Basename(files[|files| - 1])]
  }

  /** The base names of the files directly in `folder`, in order. */
  function DirectFiles(files: seq<string>, folder: string): seq<string> {
    Basenames(Filter(files, DirectlyInTest(folder)))
  }

  /** A folder yields a candidate when its direct files are non-empty and
      hold a single target, and that target's name is non-empty. */
  predicate FolderEmits(files: seq<string>, folder: string) {
    var d := DirectFiles(files, folder);
    d != [] && SelectTarget(d).Ok? && SelectTarget(d).value != ""
  }

  function EmitTest(files: seq<string>): string -> bool {
    folder => FolderEmits(files, folder)
  }

  /** The pair reported for each folder of the archive opened from `name`. */
  function Pairs(name: string, folders: seq<string>): (r: seq<Candidate>)
    ensures |r| == |folders|
    ensures forall i :: 0 <= i < |folders| ==> r[i] == ArchiveCandidate(Normalise(name), Normalise(folders[i]))
  {
    if folders == [] then []
    else Pairs(name, folders[..|folders| - 1]) + [ArchiveCandidate(Normalise(name), Normalise(folders[|folders| - 1]))]
  }

  /** What `_recursive_get_eligible_for_zip` returns for the archive opened
      from path `name` with name list `names`: a pair for each folder that
      yields a candidate, in order. */
  function ArchiveCandidates(env: Env, name: string, names: seq<string>): seq<Candidate> {
    Pairs(name, Filter(ArchiveFolders(env, names), EmitTest(ArchiveFiles(env, names))))
  }

  /** An archive yields exactly the pairs (archive, folder) of its folders
      that yield a candidate, both normalised; in particular the root "" is
      reported whenever its own files hold a single target. */
  lemma ArchiveCandidatesMembers(env: Env, name: string, names: seq<string>)
    ensures forall c :: c in ArchiveCandidates(env, name, names) <==>
              exists f :: f in ArchiveFolders(env, names) && FolderEmits(ArchiveFiles(env, names), f)
                          && c == ArchiveCandidate(Normalise(name), Normalise(f))
    ensures FolderEmits(ArchiveFiles(env, names), "") ==>
              ArchiveCandidate(Normalise(name), "") in ArchiveCandidates(env, name, names)
  {
    var folders, files := ArchiveFolders(env, names), ArchiveFiles(env, names);
    var kept := Filter(folders, EmitTest(files));
    FilterMembers(folders, EmitTest(files));
    var r := Pairs(name, kept);
    forall c | c in r
      ensures exists f :: f in folders && FolderEmits(files, f) && c == ArchiveCandidate(Normalise(name), Normalise(f))
    {
      var i :| 0 <= i < |r| && r[i] == c;
      assert kept[i] in kept;
    }
    forall f | f in folders && FolderEmits(files, f)
      ensures ArchiveCandidate(Normalise(name), Normalise(f)) in r
    {
      assert f in kept;
      var i :| 0 <= i < |kept| && kept[i] == f;
      assert r[i] == ArchiveCandidate(Normalise(name), Normalise(f));
    }
    assert Normalise("") == "";
    assert folders[0] == "";
  }

  /** A folder yields a candidate exactly when one position of its direct
      files holds a target, and that target's name is non-empty. */
  lemma FolderEmitsIff(files: seq<string>, folder: string)
    ensures var d := DirectFiles(files, folder);
            FolderEmits(files, folder) <==>
              exists k :: 0 <= k < |d| && IsTarget(d[k]) && d[k] != ""
                          && forall j :: 0 <= j < |d| && IsTarget(d[j]) ==> j == k
  {
    SelectTargetIff(DirectFiles(files, folder));
  }

  /** Classifying one more entry extends the folders or the files by it. */
  lemma PartitionStep(env: Env, names: seq<string>, i: nat)
    requires i < |names|
    ensures Filter(names[..i + 1], FolderEntryTest(env))
            == Filter(names[..i], FolderEntryTest(env)) + (if IsFolderEntry(env, names[i]) then [names[i]] else [])
    ensures Filter(names[..i + 1], FileEntryTest(env))
            == Filter(names[..i], FileEntryTest(env)) + (if IsFolderEntry(env, names[i]) then [] else [names[i]])
  {
    FilterStep(names, i, FolderEntryTest(env));
    FilterStep(names, i, FileEntryTest(env));
  }

  /** Testing one more folder extends the pairs by that folder's pair when
      it yields a candidate. */
  lemma PairsStep(name: string, files: seq<string>, folders: seq<string>, j: nat)
    requires j < |folders|
    ensures Pairs(name, Filter(folders[..j + 1], EmitTest(files)))
            == Pairs(name, Filter(folders[..j], EmitTest(files)))
               + (if FolderEmits(files, folders[j]) then [ArchiveCandidate(Normalise(name), Normalise(folders[j]))] else [])
  {
    FilterStep(folders, j, EmitTest(files));
    var kept := Filter(folders[..j], EmitTest(files));
    if FolderEmits(files, folders[j]) {
      assert (kept + [folders[j]])[..|kept|] == kept;
    }
  }

  /** The first loop of `_recursive_get_eligible_for_zip`: an entry goes to
      the folders when it is a directory or ends with "/", to the files
      otherwise. */
  method PartitionEntries(env: Env, names: seq<string>) returns (folders: seq<string>, filelist: seq<string>)
    ensures folders == ArchiveFolders(env, names)
    ensures filelist == ArchiveFiles(env, names)
  {
    filelist := [];
    folders := [""];
    var i := 0;
    while i < |names|
      invariant 0 <= i <= |names|
      invariant folders == [""] + Filter(names[..i], FolderEntryTest(env))
      invariant filelist == Filter(names[..i], FileEntryTest(env))
    {
      PartitionStep(env, names, i);
      if IsDir(env, names[i]) || EndsWith(names[i], "/") {
        folders := folders + [names[i]];
      } else {
        filelist := filelist + [names[i]];
      }
      i := i + 1;
    }
    assert names[..i] == names;
  }

  /** `_recursive_get_eligible_for_zip`: sort the entries into folders and
      files, then report each folder whose direct files hold a single,
      non-empty target. */
  method RecursiveGetEligibleForArchive(env: Env, name: string, names: seq<string>) returns (r: seq<Candidate>)
    ensures r == ArchiveCandidates(env, name, names)
  {
    var folders, filelist := PartitionEntries(env, names);
    r := [];
    var j := 0;
    while j < |folders|
      invariant 0 <= j <= |folders|
      invariant r == Pairs(name, Filter(folders[..j], EmitTest(filelist)))
    {
      PairsStep(name, filelist, folders, j);
      var folder := folders[j];
      var filtered := DirectFiles(filelist, folder);
      if filtered != [] {
        var target := VerifyAndGetTargetFile(filtered);
        if target.Ok? && target.value != "" {
          r := r + [ArchiveCandidate(Normalise(name), Normalise(folder))];
        }
      }
      j := j + 1;
    }
    assert folders[..j] == folders;
  }

  // ---------------------------------------------------------------------
  // A directory tree

  predicate IsArchiveName(n: string) {
    EndsWith(n, ".zip") || EndsWith(n, ".rar")
  }

  function ArchiveNameTest(): string -> bool {
    n => IsArchiveName(n)
  }

  function DirTest(env: Env, path: string): string -> bool {
    n => IsDir(env, Join(path, n))
  }

  function RemainingTest(compressed: seq<string>, folders: seq<string>): string -> bool {
    n => n !in compressed && n !in folders
  }

  /** An entry that is neither an archive nor a directory. */
  predicate IsPlainEntry(env: Env, path: string, n: string) {
    !IsArchiveName(n) && !IsDir(env, Join(path, n))
  }

  function PlainTest(env: Env, path: string): string -> bool {
    n => IsPlainEntry(env, path, n)
  }

  /** The entries that are neither archives nor directories, in order. */
  function Remaining(env: Env, path: string, names: seq<string>): seq<string> {
    Filter(names, PlainTest(env, path))
  }

  /** The `remaining` list, built as the entries found neither in the list
      of archives nor in the list of directories, is `Remaining`. */
  lemma RemainingAsWritten(env: Env, path: string, names: seq<string>)
    ensures Filter(names, RemainingTest(Filter(names, ArchiveNameTest()), Filter(names, DirTest(env, path))))
            == Remaining(env, path, names)
  {
    var compressed, folders := Filter(names, ArchiveNameTest()), Filter(names, DirTest(env, path));
    FilterMembers(names, ArchiveNameTest());
    FilterMembers(names, DirTest(env, path));
    forall i | 0 <= i < |names|
      ensures RemainingTest(compressed, folders)(names[i]) == PlainTest(env, path)(names[i])
    {
      assert names[i] in names;
    }
    FilterCongruent(names, RemainingTest(compressed, folders), PlainTest(env, path));
  }

  /** Folders whose names start with "." or "_" are not entered. */
  predicate Hidden(f: string) {
    f != [] && (f[0] == '.' || f[0] == '_')
  }

  /** The directory itself, when its remaining entries hold a single
      target with a non-empty name. */
  function SelfCandidate(path: string, remaining: seq<string>): seq<Candidate> {
    var t := SelectTarget(remaining);
    if t.Ok? && t.value != "" then [DirCandidate(Normalise(path))] else []
  }

  /** What `get_all_eligible_pairs(path)` returns or raises, with `fuel`
      the nested calls the interpreter still allows. */
  function EligiblePairs(env: Env, path: string, fuel: nat): Result<seq<Candidate>>
    decreases fuel, 2
  {
    if fuel == 0 then Err(RecursionError) else ScanDirectory(env, path, fuel)
  }

  /** One call of `get_all_eligible_pairs` that the interpreter admits: the
      directory itself, then its sub-directories, then its archives. */
  function ScanDirectory(env: Env, path: string, fuel: nat): Result<seq<Candidate>>
    requires fuel > 0
    decreases fuel, 1
  {
    var names :- Listdir(env, path);
    var compressed := Filter(names, ArchiveNameTest());
    var folders := Filter(names, DirTest(env, path));
    var sub :- ScanFolders(env, path, folders, fuel);
    var arch :- ScanArchives(env, path, compressed);
    Ok(SelfCandidate(path, Remaining(env, path, names)) + sub + arch)
  }

  /** The loop over the sub-directories: hidden ones are skipped, the others
      scanned one call deeper; the first error ends the scan. */
  function ScanFolders(env: Env, path: string, folders: seq<string>, fuel: nat): Result<seq<Candidate>>
    requires fuel > 0
    decreases fuel, 0, |folders|
  {
    if folders == [] then Ok([])
    else
      var done :- ScanFolders(env, path, folders[..|folders| - 1], fuel);
      var f := folders[|folders| - 1];
      if Hidden(f) then Ok(done)
      else
        var more :- SubScan(env, path, f, fuel);
        Ok(done + more)
  }

  /** Scanning the sub-directory `f` of `path`, one call deeper. */
  function SubScan(env: Env, path: string, f: string, fuel: nat): Result<seq<Candidate>>
    requires fuel > 0
    decreases fuel, 0, 0
  {
    EligiblePairs(env, Join(path, f), fuel - 1)
  }

  function ArchiveKindOf(n: string): ArchiveKind {
    if EndsWith(n, ".zip") then Zip else Rar
  }

  /** The loop over the archives: each is opened as zip or rar (a failure
      ends the scan) and its folders listed. */
  function ScanArchives(env: Env, path: string, compressed: seq<string>): Result<seq<Candidate>> {
    if compressed == [] then Ok([])
    else
      var done :- ScanArchives(env, path, compressed[..|compressed| - 1]);
      var p := Join(path, compressed[|compressed| - 1]);
      var a :- OpenArchive(env, ArchiveKindOf(compressed[|compressed| - 1]), p);
      Ok(done + ArchiveCandidates(env, p, a.names))
  }

  lemma {:induction false} ScanFoldersFirstError(env: Env, path: string, folders: seq<string>, k: nat, fuel: nat)
    requires fuel > 0 && k <= |folders|
    requires ScanFolders(env, path, folders[..k], fuel).Err?
    ensures ScanFolders(env, path, folders, fuel) == ScanFolders(env, path, folders[..k], fuel)
  {
    if k < |folders| {
      var init := folders[..|folders| - 1];
      assert init[..k] == folders[..k];
      ScanFoldersFirstError(env, path, init, k, fuel);
    } else {
      assert folders[..k] == folders;
    }
  }

  lemma {:induction false} ScanArchivesFirstError(env: Env, path: string, compressed: seq<string>, k: nat)
    requires k <= |compressed|
    requires ScanArchives(env, path, compressed[..k]).Err?
    ensures ScanArchives(env, path, compressed) == ScanArchives(env, path, compressed[..k])
  {
    if k < |compressed| {
      var init := compressed[..|compressed| - 1];
      assert init[..k] == compressed[..k];
      ScanArchivesFirstError(env, path, init, k);
    } else {
      assert compressed[..k] == compressed;
    }
  }

  /** A hidden sub-directory is skipped: the scan so far is unchanged. */
  lemma ScanFoldersSkip(env: Env, path: string, folders: seq<string>, i: nat, fuel: nat)
    requires fuel > 0 && i < |folders| && Hidden(folders[i])
    ensures ScanFolders(env, path, folders[..i + 1], fuel) == ScanFolders(env, path, folders[..i], fuel)
  {
    assert folders[..i + 1][..i] == folders[..i];
  }

  /** Scanning a visible sub-directory: its candidates are added, or its
      error is the outcome of the whole scan. */
  lemma ScanFoldersNext(env: Env, path: string, folders: seq<string>, i: nat, fuel: nat, q: string, k: nat)
    requires fuel > 0 && i < |folders| && !Hidden(folders[i])
    requires q == Join(path, folders[i]) && k == fuel - 1
    requires ScanFolders(env, path, folders[..i], fuel).Ok?
    ensures SubScan(env, path, folders[i], fuel) == EligiblePairs(env, q, k)
    ensures var sub := SubScan(env, path, folders[i], fuel);
            (sub.Err? ==> ScanFolders(env, path, folders, fuel) == Err(sub.error))
            && (sub.Ok? ==> ScanFolders(env, path, folders[..i + 1], fuel)
                            == Ok(ScanFolders(env, path, folders[..i], fuel).value + sub.value))
  {
    assert folders[..i + 1][..i] == folders[..i];
    if SubScan(env, path, folders[i], fuel).Err? {
      ScanFoldersFirstError(env, path, folders, i + 1, fuel);
    }
  }

  /** Listing one more archive: its candidates are added, or a failure to
      open it ends the scan. */
  lemma ScanArchivesStep(env: Env, path: string, compressed: seq<string>, j: nat)
    requires j < |compressed|
    requires ScanArchives(env, path, compressed[..j]).Ok?
    ensures var p := Join(path, compressed[j]);
            var a := OpenArchive(env, ArchiveKindOf(compressed[j]), p);
            ScanArchives(env, path, compressed[..j + 1])
            == if a.Err? then Err(a.error)
               else Ok(ScanArchives(env, path, compressed[..j]).value + ArchiveCandidates(env, p, a.value.names))
  {
    assert compressed[..j + 1][..j] == compressed[..j];
  }

  /** The loop over the sub-directories of `get_all_eligible_pairs`. */
  method ScanFolderLoop(env: Env, path: string, folders: seq<string>, fuel: nat) returns (r: Result<seq<Candidate>>)
    requires fuel > 0
    ensures r == ScanFolders(env, path, folders, fuel)
    decreases fuel, 0
  {
    var eligibles: seq<Candidate> := [];
    var i := 0;
    while i < |folders|
      invariant 0 <= i <= |folders|
      invariant ScanFolders(env, path, folders[..i], fuel) == Ok(eligibles)
    {
      var folder := folders[i];
      if Hidden(folder) {
        ScanFoldersSkip(env, path, folders, i, fuel);
      } else {
        var q, k := Join(path, folder), fuel - 1;
        ScanFoldersNext(env, path, folders, i, fuel, q, k);
        var sub := GetAllEligiblePairs(env, q, k);
        if sub.Err? {
          return Err(sub.error);
        }
        eligibles := eligibles + sub.value;
      }
      i := i + 1;
    }
    assert folders[..i] == folders;
    r := Ok(eligibles);
  }

  /** The loop over the archives of `get_all_eligible_pairs`. */
  method ScanArchiveLoop(env: Env, path: string, compressed: seq<string>) returns (r: Result<seq<Candidate>>)
    ensures r == ScanArchives(env, path, compressed)
  {
    var eligibles: seq<Candidate> := [];
    var j := 0;
    while j < |compressed|
      invariant 0 <= j <= |compressed|
      invariant ScanArchives(env, path, compressed[..j]) == Ok(eligibles)
    {
      ScanArchivesStep(env, path, compressed, j);
      var file := compressed[j];
      var p := Join(path, file);
      var a := OpenArchive(env, if EndsWith(file, ".zip") then Zip else Rar, p);
      if a.Err? {
        ScanArchivesFirstError(env, path, compressed, j + 1);
        return Err(a.error);
      }
      var found := RecursiveGetEligibleForArchive(env, p, a.value.names);
      eligibles := eligibles + found;
      j := j + 1;
    }
    assert compressed[..j] == compressed;
    r := Ok(eligibles);
  }

  /** `get_all_eligible_pairs`: list the directory, test the remaining
      entries, recurse into the visible sub-directories, then list the
      archives; any error propagates. */
  method GetAllEligiblePairs(env: Env, path: string, fuel: nat) returns (r: Result<seq<Candidate>>)
    ensures r == EligiblePairs(env, path, fuel)
    decreases fuel, 1
  {
    if fuel == 0 {
      return Err(RecursionError);
    }
    var names :- Listdir(env, path);
    var compressed := Filter(names, ArchiveNameTest());
    var folders := Filter(names, DirTest(env, path));
    var remaining := Filter(names, RemainingTest(compressed, folders));
    RemainingAsWritten(env, path, names);
    var eligibles: seq<Candidate> := [];
    var target := VerifyAndGetTargetFile(remaining);
    if target.Ok? && target.value != "" {
      eligibles := [DirCandidate(Normalise(path))];
    }
    var sub :- ScanFolderLoop(env, path, folders, fuel);
    eligibles := eligibles + sub;
    var arch :- ScanArchiveLoop(env, path, compressed);
    eligibles := eligibles + arch;
    r := Ok(eligibles);
  }
  // ---------------------------------------------------------------------
  // What a directory scan reports

  function VisibleTest(): string -> bool {
    f => !Hidden(f)
  }

  /** One more sub-directory in the list: skipped when hidden, scanned
      otherwise, and only once the earlier ones were scanned without error. */
  lemma ScanFoldersSnoc(env: Env, path: string, xs: seq<string>, f: string, fuel: nat)
    requires fuel > 0
    ensures ScanFolders(env, path, xs + [f], fuel)
            == if ScanFolders(env, path, xs, fuel).Err? || Hidden(f) then ScanFolders(env, path, xs, fuel)
               else
                 var more := SubScan(env, path, f, fuel);
                 if more.Err? then Err(more.error) else Ok(ScanFolders(env, path, xs, fuel).value + more.value)
  {
    assert (xs + [f])[..|xs|] == xs;
  }

  /** A successful scan of the sub-directories is the scan of all but the
      last, followed by the last one's candidates unless it is hidden. */
  lemma ScanFoldersOkLast(env: Env, path: string, xs: seq<string>, f: string, fuel: nat)
    requires fuel > 0 && ScanFolders(env, path, xs + [f], fuel).Ok?
    ensures ScanFolders(env, path, xs, fuel).Ok?
    ensures !Hidden(f) ==> SubScan(env, path, f, fuel).Ok?
    ensures ScanFolders(env, path, xs + [f], fuel).value
            == ScanFolders(env, path, xs, fuel).value
               + (if Hidden(f) then [] else SubScan(env, path, f, fuel).value)
  {
    ScanFoldersSnoc(env, path, xs, f, fuel);
  }

  /** Hidden sub-directories are never entered: scanning the directories
      gives exactly what scanning only the visible ones gives, errors
      included. */
  lemma {:induction false} ScanFoldersVisibleOnly(env: Env, path: string, folders: seq<string>, fuel: nat)
    requires fuel > 0
    ensures ScanFolders(env, path, folders, fuel) == ScanFolders(env, path, Filter(folders, VisibleTest()), fuel)
    decreases |folders|
  {
    if folders != [] {
      var init, f := folders[..|folders| - 1], folders[|folders| - 1];
      assert folders == init + [f];
      ScanFoldersVisibleOnly(env, path, init, fuel);
      ScanFoldersSnoc(env, path, init, f, fuel);
      var kept := Filter(init, VisibleTest());
      if !Hidden(f) {
        assert Filter(folders, VisibleTest()) == kept + [f];
        ScanFoldersSnoc(env, path, kept, f, fuel);
      } else {
        assert Filter(folders, VisibleTest()) == kept;
      }
    }
  }

  /** The remaining entries are exactly the listed entries that are neither
      archives nor directories, in listing order. */
  lemma RemainingMembers(env: Env, path: string, names: seq<string>)
    ensures forall n :: n in Remaining(env, path, names) <==>
              n in names && !IsArchiveName(n) && !IsDir(env, Join(path, n))
    ensures IsSubsequence(Remaining(env, path, names), names)
  {
    FilterMembers(names, PlainTest(env, path));
    FilterIsSubsequence(names, PlainTest(env, path));
  }

  /** Every candidate in `cs` lives at a path longer than `path`. */
  predicate Deeper(cs: seq<Candidate>, path: string) {
    forall c | c in cs :: |Loc(c)| > |path|
  }

  /** Every candidate found in the archives of a directory is a folder of
      one of its archives, and that archive's path is longer than the
      directory's. */
  lemma {:induction false} ScanArchivesDeeper(env: Env, path: string, compressed: seq<string>)
    requires forall n | n in compressed :: n != "" && n[0] != '/'
    requires ScanArchives(env, path, compressed).Ok?
    ensures forall c | c in ScanArchives(env, path, compressed).value :: c.ArchiveCandidate?
    ensures Deeper(ScanArchives(env, path, compressed).value, path)
    decreases |compressed|
  {
    if compressed != [] {
      var init, n := compressed[..|compressed| - 1], compressed[|compressed| - 1];
      assert forall m | m in init :: m in compressed;
      assert n in compressed;
      ScanArchivesDeeper(env, path, init);
      var p := Join(path, n);
      var a := OpenArchive(env, ArchiveKindOf(n), p);
      ArchiveCandidatesMembers(env, p, a.value.names);
    }
  }

  /** Every candidate found below the visible sub-directories lives at a
      path longer than the directory's. */
  lemma {:induction false} ScanFoldersDeeper(env: Env, path: string, folders: seq<string>, fuel: nat)
    requires fuel > 0 && PlainListings(env)
    requires forall n | n in folders :: n != "" && n[0] != '/'
    requires ScanFolders(env, path, folders, fuel).Ok?
    ensures Deeper(ScanFolders(env, path, folders, fuel).value, path)
    decreases fuel, 0, |folders|
  {
    if folders != [] {
      var init, f := folders[..|folders| - 1], folders[|folders| - 1];
      assert folders == init + [f];
      assert ScanFolders(env, path, init, fuel).Ok?
             && (!Hidden(f) ==> SubScan(env, path, f, fuel).Ok?) by {
        ScanFoldersOkLast(env, path, init, f, fuel);
      }
      var done := ScanFolders(env, path, init, fuel).value;
      var more := if Hidden(f) then [] else SubScan(env, path, f, fuel).value;
      assert ScanFolders(env, path, folders, fuel).value == done + more by {
        ScanFoldersOkLast(env, path, init, f, fuel);
      }
      assert Deeper(done, path) by {
        assert forall m | m in init :: m in folders;
        ScanFoldersDeeper(env, path, init, fuel);
      }
      if !Hidden(f) {
        assert f in folders;
        SubScanDeeper(env, path, f, fuel);
      }
    }
  }

  /** The candidates of a sub-directory live at paths longer than the
      directory's. */
  lemma {:induction false} SubScanDeeper(env: Env, path: string, f: string, fuel: nat)
    requires fuel > 0 && PlainListings(env) && f != "" && f[0] != '/'
    requires SubScan(env, path, f, fuel).Ok?
    ensures Deeper(SubScan(env, path, f, fuel).value, path)
    decreases fuel, 0, 0
  {
    var q, k := Join(path, f), fuel - 1;
    DeeperBelow(env, path, q, k);
  }

  /** The candidates of a directory `q` longer than `path` live at paths
      longer than `path`. */
  lemma {:induction false} DeeperBelow(env: Env, path: string, q: string, k: nat)
    requires PlainListings(env) && |q| > |path|
    requires EligiblePairs(env, q, k).Ok?
    ensures Deeper(EligiblePairs(env, q, k).value, path)
    decreases k, 2
  {
    EligibleDepth(env, q, k);
  }

  /** Every candidate of a directory scan other than the directory itself
      lives at a path longer than the directory's. */
  lemma {:induction false} EligibleDepth(env: Env, path: string, fuel: nat)
    requires PlainListings(env)
    requires EligiblePairs(env, path, fuel).Ok?
    ensures forall c | c in EligiblePairs(env, path, fuel).value ::
              c == DirCandidate(Normalise(path)) || |Loc(c)| > |path|
    decreases fuel, 1
  {
    var names := Listdir(env, path).value;
    ListdirNames(env, path);
    var compressed := Filter(names, ArchiveNameTest());
    var folders := Filter(names, DirTest(env, path));
    FilterMembers(names, ArchiveNameTest());
    FilterMembers(names, DirTest(env, path));
    var sub := ScanFolders(env, path, folders, fuel);
    var arch := ScanArchives(env, path, compressed);
    ScanFoldersDeeper(env, path, folders, fuel);
    ScanArchivesDeeper(env, path, compressed);
    var remaining := Remaining(env, path, names);
    SelfThenDeeper(path, remaining, sub.value, arch.value);
  }

  /** The directory itself, then candidates at longer paths. */
  lemma SelfThenDeeper(path: string, remaining: seq<string>, sub: seq<Candidate>, arch: seq<Candidate>)
    requires Deeper(sub, path) && Deeper(arch, path)
    ensures forall c | c in SelfCandidate(path, remaining) + sub + arch ::
              c == DirCandidate(Normalise(path)) || |Loc(c)| > |path|
  {
  }

  /** A directory is reported itself exactly when its remaining entries
      (neither archives nor directories) hold a single target with a
      non-empty name. */
  lemma DirSelfEmitted(env: Env, path: string, fuel: nat)
    requires PlainListings(env)
    requires EligiblePairs(env, path, fuel).Ok?
    ensures Listdir(env, path).Ok?
    ensures var t := SelectTarget(Remaining(env, path, Listdir(env, path).value));
            DirCandidate(Normalise(path)) in EligiblePairs(env, path, fuel).value <==> t.Ok? && t.value != ""
  {
    var names := Listdir(env, path).value;
    ListdirNames(env, path);
    var folders := Filter(names, DirTest(env, path));
    var compressed := Filter(names, ArchiveNameTest());
    FilterMembers(names, ArchiveNameTest());
    FilterMembers(names, DirTest(env, path));
    var sub := ScanFolders(env, path, folders, fuel);
    var arch := ScanArchives(env, path, compressed);
    ScanFoldersDeeper(env, path, folders, fuel);
    ScanArchivesDeeper(env, path, compressed);
    var self := SelfCandidate(path, Remaining(env, path, names));
    assert EligiblePairs(env, path, fuel).value == self + sub.value + arch.value;
    var d := DirCandidate(Normalise(path));
    assert d !in sub.value by { assert |Loc(d)| == |path|; }
    assert d !in arch.value;
  }
}
