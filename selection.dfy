/** Choosing the target file of a mod unit and the entries of one archive
    folder (`verify_and_get_target_file`, `filter_filelist`). */
module Selection {
  import opened Wrappers
  import opened PyStr
  import opened PyPath
  import opened Seqs

  const PatchMarker := ".patch_"

  /** A target file has no extension, or one that starts with ".patch_". */
  predicate IsTarget(f: string) {
    var e := Ext(f);
    e == "" || StartsWith(e, PatchMarker)
  }

  /** The outcome `verify_and_get_target_file` specifies: the one target
      among the names, or ValueError. */
  function SelectTarget(names: seq<string>): Result<string> {
    var targets := Filter(names, IsTarget);
    if |targets| == 1 then Ok(targets[0]) else Err(ValueError)
  }

  /** The selection succeeds exactly when one position holds a target, and
      then yields the name at that position. */
  lemma SelectTargetIff(names: seq<string>)
    ensures SelectTarget(names).Ok? ==>
      exists k :: 0 <= k < |names| && names[k] == SelectTarget(names).value && IsTarget(names[k])
                  && forall j :: 0 <= j < |names| && IsTarget(names[j]) ==> j == k
    ensures forall k :: 0 <= k < |names| && IsTarget(names[k])
                        && (forall j :: 0 <= j < |names| && IsTarget(names[j]) ==> j == k)
                        ==> SelectTarget(names) == Ok(names[k])
  {
    if SelectTarget(names).Ok? {
      FilterSingletonPosition(names, IsTarget);
    }
    forall k | 0 <= k < |names| && IsTarget(names[k])
               && (forall j :: 0 <= j < |names| && IsTarget(names[j]) ==> j == k)
      ensures SelectTarget(names) == Ok(names[k])
    {
      FilterSingleton(names, IsTarget, k);
    }
  }

  /** A list without any target is a ValueError. */
  lemma SelectTargetNone(names: seq<string>)
    requires forall k :: 0 <= k < |names| ==> !IsTarget(names[k])
    ensures SelectTarget(names) == Err(ValueError)
  {
    FilterEmpty(names, IsTarget);
  }

  /** Two targets are a ValueError. */
  lemma SelectTargetErrors(names: seq<string>, i: nat, j: nat)
    requires i < j < |names| && IsTarget(names[i]) && IsTarget(names[j])
    ensures SelectTarget(names) == Err(ValueError)
  {
    if SelectTarget(names).Ok? {
      FilterSingletonPosition(names, IsTarget);
    }
  }

  /** `verify_and_get_target_file`: collect the targets in a loop; return
      the only one or raise ValueError. */
  method VerifyAndGetTargetFile(names: seq<string>) returns (r: Result<string>)
    ensures r == SelectTarget(names)
  {
    var targets: seq<string> := [];
    var i := 0;
    while i < |names|
      invariant 0 <= i <= |names|
      invariant targets == Filter(names[..i], IsTarget)
    {
      FilterStep(names, i, IsTarget);
      if IsTarget(names[i]) {
        targets := targets + [names[i]];
      }
      i := i + 1;
    }
    assert names[..i] == names;
    if |targets| != 1 {
      return Err(ValueError);
    }
    r := Ok(targets[0]);
  }

  /** `len(os.path.normpath(folder).split(os.sep))` */
  function FolderDepth(folder: string): nat {
    |Split(Normpath(folder), '/')|
  }

  /** An entry sits directly inside `folder`: it starts with the folder, is
      not itself a folder entry, and has one "/" more than the folder has
      components. */
  predicate InFolder(folder: string, f: string) {
    StartsWith(f, folder) && !EndsWith(f, "/") && |Split(f, '/')| - 1 == FolderDepth(folder)
  }

  /** The list `filter_filelist` returns. */
  function FilteredList(names: seq<string>, folder: string): seq<string> {
    if folder == "" then names else Filter(names, f => InFolder(folder, f))
  }

  /** For the root folder the list is returned unchanged; otherwise the
      result keeps, in order, exactly the entries directly in the folder,
      whose "/" count equals the folder's depth. */
  lemma FilteredListProperties(names: seq<string>, folder: string)
    ensures folder == "" ==> FilteredList(names, folder) == names
    ensures IsSubsequence(FilteredList(names, folder), names)
    ensures folder != "" ==>
      forall f :: f in FilteredList(names, folder) <==>
        f in names && StartsWith(f, folder) && !EndsWith(f, "/") && CountChar(f, '/') == FolderDepth(folder)
  {
    if folder == "" {
      FilterAll(names, _ => true);
      FilterIsSubsequence(names, _ => true);
    } else {
      var keep := f => InFolder(folder, f);
      FilterIsSubsequence(names, keep);
      FilterMembers(names, keep);
      forall f: string ensures |Split(f, '/')| - 1 == CountChar(f, '/') {
        SplitLength(f, '/');
      }
    }
  }

  /** `filter_filelist`: the root folder keeps everything; otherwise a loop
      appends the entries directly inside `folder`. */
  method FilterFilelist(names: seq<string>, folder: string) returns (r: seq<string>)
    ensures r == FilteredList(names, folder)
  {
    if folder == "" {
      return names;
    }
    var depth := FolderDepth(folder);
    var files: seq<string> := [];
    var i := 0;
    while i < |names|
      invariant 0 <= i <= |names|
      invariant files == Filter(names[..i], f => InFolder(folder, f))
    {
      FilterStep(names, i, f => InFolder(folder, f));
      var file := names[i];
      if StartsWith(file, folder) && !EndsWith(file, "/") && |Split(file, '/')| - 1 == depth {
        files := files + [file];
      }
      i := i + 1;
    }
    assert names[..i] == names;
    r := files;
  }
}
