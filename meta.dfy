/** The meta of a mod unit, its hash and its manifest, for a directory
    (`generate_folder_meta`) or a folder inside a zip or rar archive
    (`generate_zip_meta`, `generate_rar_meta`), and the dispatch on the shape
    of a candidate (`smart_get_meta`). */
module Meta {
  import opened Wrappers
  import opened PyStr
  import opened PyPath
  import opened Model
  import opened Environment
  import opened Seqs
  import opened Selection
  import opened Hashing
  import opened MtimeCache

  /** What a meta function returns: the unit's hash and its manifest, if any. */
  datatype Meta = Meta(hash: Hash, manifest: Option<Manifest>)

  const ManifestName := "manifest.json"

  /** The entries of directory `path` that are plain files, in listing order. */
  function FilesIn(env: Env, path: string, names: seq<string>): seq<string> {
    Filter(names, n => IsFile(env, Join(path, n)))
  }

  /** The manifest of a directory unit: parsed when "manifest.json" is among
      its files. */
  function FolderManifest(env: Env, path: string, files: seq<string>): Result<Option<Manifest>> {
    if ManifestName in files then
      var data :- ReadFile(env, Join(path, ManifestName));
      var m :- ParseManifest(env, data);
      Ok(Some(m))
    else Ok(None)
  }

  /** What the body of `generate_folder_meta(path)` computes: the manifest
      is read before the target is chosen, so a broken manifest is reported
      even when the directory has no single target. */
  function FolderMeta(env: Env, path: string): Result<Meta> {
    var names :- Listdir(env, path);
    var files := FilesIn(env, path, names);
    var manifest :- FolderManifest(env, path, files);
    FolderUnit(env, path, files, manifest)
  }

  /** The part of `generate_folder_meta` after the manifest is read. */
  function FolderUnit(env: Env, path: string, files: seq<string>, manifest: Option<Manifest>): Result<Meta> {
    var target :- SelectTarget(files);
    var hash :- FileHash(env, path, target);
    Ok(Meta(hash, manifest))
  }

  /** A directory unit's hash is the digest of its one target file and that
      file's sidecars. */
  lemma FolderMetaHash(env: Env, path: string, m: Meta)
    requires FolderMeta(env, path) == Ok(m)
    ensures IsDir(env, path)
    ensures exists t :: t in Listdir(env, path).value && IsFile(env, Join(path, t)) && IsTarget(t)
                        && SelectTarget(FilesIn(env, path, Listdir(env, path).value)) == Ok(t)
                        && DirUnitInput(env, path, t).Ok? && m.hash == env.digest(DirUnitInput(env, path, t).value)
  {
    var names := Listdir(env, path).value;
    var files := FilesIn(env, path, names);
    var t := FolderMetaSteps(env, path, m);
    FilterMembers(names, n => IsFile(env, Join(path, n)));
    SelectTargetIff(files);
    assert t in files;
    assert t in names && IsFile(env, Join(path, t)) && IsTarget(t);
    assert DirUnitInput(env, path, t).Ok? && m.hash == env.digest(DirUnitInput(env, path, t).value);
  }

  /** A directory unit has a manifest exactly when "manifest.json" is a file
      in it. */
  lemma FolderMetaManifest(env: Env, path: string, m: Meta)
    requires FolderMeta(env, path) == Ok(m)
    ensures m.manifest.Some? <==> ManifestName in Listdir(env, path).value && IsFile(env, Join(path, ManifestName))
  {
    var t := FolderMetaSteps(env, path, m);
    FolderManifestPresent(env, path, Listdir(env, path).value, m.manifest);
  }

  lemma FolderManifestPresent(env: Env, path: string, names: seq<string>, manifest: Option<Manifest>)
    requires FolderManifest(env, path, FilesIn(env, path, names)) == Ok(manifest)
    ensures manifest.Some? <==> ManifestName in names && IsFile(env, Join(path, ManifestName))
  {
    FilesInMember(env, path, names, ManifestName);
    if ManifestName in FilesIn(env, path, names) {
      assert manifest.Some?;
    } else {
      assert manifest == None;
    }
  }

  lemma FilesInMember(env: Env, path: string, names: seq<string>, x: string)
    ensures x in FilesIn(env, path, names) <==> x in names && IsFile(env, Join(path, x))
  {
    FilterMembers(names, n => IsFile(env, Join(path, n)));
  }

  lemma FolderMetaSteps(env: Env, path: string, m: Meta) returns (t: string)
    requires FolderMeta(env, path) == Ok(m)
    ensures Listdir(env, path).Ok?
    ensures var files := FilesIn(env, path, Listdir(env, path).value);
            && FolderManifest(env, path, files) == Ok(m.manifest)
            && SelectTarget(files) == Ok(t)
            && FileHash(env, path, t) == Ok(m.hash)
  {
    var files := FilesIn(env, path, Listdir(env, path).value);
    var man := FolderManifest(env, path, files);
    assert man.Ok? && FolderUnit(env, path, files, man.value) == Ok(m);
    t := FolderUnitSteps(env, path, files, man.value, m);
  }

  lemma FolderUnitSteps(env: Env, path: string, files: seq<string>, manifest: Option<Manifest>, m: Meta)
    returns (t: string)
    requires FolderUnit(env, path, files, manifest) == Ok(m)
    ensures m.manifest == manifest && SelectTarget(files) == Ok(t) && FileHash(env, path, t) == Ok(m.hash)
  {
    t := SelectTarget(files).value;
  }

  /** `generate_folder_meta`'s body: list, keep the files, read the manifest,
      choose the target and hash it. */
  method GenerateFolderMeta(env: Env, path: string) returns (r: Result<Meta>)
    ensures r == FolderMeta(env, path)
  {
    var names :- Listdir(env, path);
    var files := FilesIn(env, path, names);
    var manifest :- FolderManifest(env, path, files);
    var target :- VerifyAndGetTargetFile(files);
    var hash :- CalculateHash(env, path, target);
    r := Ok(Meta(hash, manifest));
  }

  /** The manifest of an archive unit: the membership test looks for
      `folder + "manifest.json"`, but the member read is the one at the
      archive root. */
  function ArchiveManifest(env: Env, a: Archive, folder: string): Result<Option<Manifest>> {
    if folder + ManifestName in a.names then
      var data :- ReadMember(a, ManifestName);
      var m :- ParseManifest(env, data);
      Ok(Some(m))
    else Ok(None)
  }

  /** What `generate_zip_meta(p, folder)` (kind Zip) and
      `generate_rar_meta(p, folder)` (kind Rar) compute. */
  function ArchiveMeta(env: Env, kind: ArchiveKind, p: string, folder: string): Result<Meta> {
    var a :- OpenArchive(env, kind, p);
    var target :- SelectTarget(FilteredList(a.names, folder));
    var input :- ArchiveUnitInput(a, target);
    var manifest :- ArchiveManifest(env, a, folder);
    Ok(Meta(env.digest(input), manifest))
  }

  /** An archive unit's hash is the digest of the one target among the
      folder's direct entries and its sidecars; it has a manifest exactly
      when `folder + "manifest.json"` is an entry of the archive. */
  lemma ArchiveMetaSound(env: Env, kind: ArchiveKind, p: string, folder: string, m: Meta)
    requires ArchiveMeta(env, kind, p, folder) == Ok(m)
    ensures OpenArchive(env, kind, p).Ok?
    ensures var a := OpenArchive(env, kind, p).value;
            exists t :: t in FilteredList(a.names, folder) && IsTarget(t)
                        && SelectTarget(FilteredList(a.names, folder)) == Ok(t)
                        && ArchiveUnitInput(a, t).Ok? && m.hash == env.digest(ArchiveUnitInput(a, t).value)
    ensures m.manifest.Some? <==> folder + ManifestName in OpenArchive(env, kind, p).value.names
  {
    var a := OpenArchive(env, kind, p).value;
    var files := FilteredList(a.names, folder);
    SelectTargetIff(files);
    var t := SelectTarget(files).value;
    assert t in files && IsTarget(t);
  }

  /** The manifest of a unit in an archive sub-folder is looked up at the
      archive root: when the folder has "manifest.json" but the root has
      none, an otherwise good unit fails with the library's missing-member
      error, KeyError for zip and NoRarEntry for rar. */
  lemma SubfolderManifestReadsRoot(env: Env, kind: ArchiveKind, p: string, folder: string, a: Archive)
    requires OpenArchive(env, kind, p) == Ok(a)
    requires SelectTarget(FilteredList(a.names, folder)).Ok?
    requires ArchiveUnitInput(a, SelectTarget(FilteredList(a.names, folder)).value).Ok?
    requires folder + ManifestName in a.names && ManifestName !in a.members
    ensures ArchiveMeta(env, kind, p, folder) == Err(if kind == Zip then KeyError else NoRarEntry)
  {
  }

  /** `generate_zip_meta` / `generate_rar_meta`: open, keep the folder's
      entries, choose the target, hash it, then look for a manifest. */
  method GenerateArchiveMeta(env: Env, kind: ArchiveKind, p: string, folder: string) returns (r: Result<Meta>)
    ensures r == ArchiveMeta(env, kind, p, folder)
  {
    var a :- OpenArchive(env, kind, p);
    var files := FilterFilelist(a.names, folder);
    var target :- VerifyAndGetTargetFile(files);
    var hash :- HashArchiveUnit(env, a, target);
    var manifest :- ArchiveManifest(env, a, folder);
    r := Ok(Meta(hash, manifest));
  }

  /** The argument of `smart_get_meta`: a path string, or a tuple of strings. */
  datatype MetaArg = PathArg(s: string) | TupleArg(items: seq<string>)

  /** What `smart_get_meta` returns: hash, path reference and manifest. */
  datatype Found = Found(hash: Hash, ref: PathRef, manifest: Option<Manifest>)

  /** `generate_folder_meta` is decorated: its cache holds, per path, a meta
      and the mtime it was computed at. */
  type FolderCache = CacheState<(), Meta>

  function FolderMetaOf(env: Env): CallKey<()> -> Result<Meta> {
    (k: CallKey<()>) => FolderMeta(env, k.path)
  }

  /** Attach the path reference to a meta: `path` relative to the resource
      group, and the archive folder as `subpath`. */
  function Locate(m: Result<Meta>, env: Env, group: string, container: string, subpath: string): Result<Found> {
    var meta :- m;
    var rel :- Relpath(env.cwd, container, group);
    Ok(Found(meta.hash, MakePathRef(group, rel, subpath), meta.manifest))
  }

  datatype MetaOutcome = MetaOutcome(cache: FolderCache, result: Result<Found>)

  /** A string that is not a file, or a one-tuple whose item is non-empty,
      names a directory unit. */
  predicate IsFolderArg(env: Env, arg: MetaArg) {
    (arg.PathArg? && !IsFile(env, arg.s)) || (arg.TupleArg? && |arg.items| == 1 && arg.items[0] != "")
  }

  function FolderOf(arg: MetaArg): string
    requires arg.PathArg? || |arg.items| == 1
  {
    if arg.PathArg? then arg.s else arg.items[0]
  }

  /** `smart_get_meta(arg, group)`, with the folder-meta cache before and after. */
  function SmartGetMetaSpec(env: Env, st: FolderCache, arg: MetaArg, group: string): MetaOutcome {
    if IsFolderArg(env, arg) then
      var p := FolderOf(arg);
      var o := CallSpec(st, Str(p), (), GetMtime(env, p), FolderMetaOf(env));
      MetaOutcome(o.state, Locate(o.result, env, group, p, ""))
    else if arg.TupleArg? && |arg.items| == 2 && EndsWith(arg.items[0], ".zip") then
      MetaOutcome(st, Locate(ArchiveMeta(env, Zip, arg.items[0], arg.items[1]), env, group, arg.items[0], arg.items[1]))
    else if arg.TupleArg? && |arg.items| == 2 && EndsWith(arg.items[0], ".rar") then
      MetaOutcome(st, Locate(ArchiveMeta(env, Rar, arg.items[0], arg.items[1]), env, group, arg.items[0], arg.items[1]))
    else if arg.TupleArg? then
      // a one-tuple holding "" has been unpacked to "", which ends with
      // neither suffix; any other tuple has no `endswith`
      MetaOutcome(st, Err(if |arg.items| == 1 then ValueError else AttributeError))
    else if EndsWith(arg.s, ".zip") then
      MetaOutcome(st, Locate(ArchiveMeta(env, Zip, arg.s, ""), env, group, arg.s, ""))
    else if EndsWith(arg.s, ".rar") then
      MetaOutcome(st, Locate(ArchiveMeta(env, Rar, arg.s, ""), env, group, arg.s, ""))
    else MetaOutcome(st, Err(ValueError))
  }

  /** Only a directory unit touches the cache; a found unit's reference
      carries the normalised resource group, the container relative to it,
      and the archive folder (none for a directory); shapes that are neither
      a directory nor a zip or rar are rejected. */
  lemma SmartGetMetaDispatch(env: Env, st: FolderCache, arg: MetaArg, group: string)
    ensures var o := SmartGetMetaSpec(env, st, arg, group);
            && (!IsFolderArg(env, arg) ==> o.cache == st)
            && (o.result.Ok? ==> o.result.value.ref.resourceGroup == Normalise(group))
            && (o.result.Ok? && IsFolderArg(env, arg) ==>
                  o.result.value.ref == MakePathRef(group, Relpath(env.cwd, FolderOf(arg), group).value, ""))
            && (o.result.Ok? && arg.TupleArg? && |arg.items| == 2 ==>
                  o.result.value.ref == MakePathRef(group, Relpath(env.cwd, arg.items[0], group).value, arg.items[1]))
            && (arg.TupleArg? && |arg.items| != 1 && |arg.items| != 2 ==> o.result == Err(AttributeError))
            && (arg.PathArg? && IsFile(env, arg.s) && !EndsWith(arg.s, ".zip") && !EndsWith(arg.s, ".rar") ==>
                  o.result == Err(ValueError))
  {
  }

  /** While the cache agrees with the directories as they are now, a
      directory unit gets exactly the meta `generate_folder_meta` computes,
      and the cache goes on agreeing. */
  lemma SmartGetMetaFolder(env: Env, st: FolderCache, arg: MetaArg, group: string)
    requires Consistent(st) && Agrees(st, FolderMetaOf(env))
    requires IsFolderArg(env, arg)
    ensures var o := SmartGetMetaSpec(env, st, arg, group);
            o.result == Locate(FolderMeta(env, FolderOf(arg)), env, group, FolderOf(arg), "")
            && Consistent(o.cache) && Agrees(o.cache, FolderMetaOf(env))
  {
    var p := FolderOf(arg);
    AgreeingCacheIsTransparent(st, p, (), GetMtime(env, p), FolderMetaOf(env));
    CallFrame(st, Str(p), (), GetMtime(env, p), FolderMetaOf(env));
  }

  /** `smart_get_meta`, with the decorated `generate_folder_meta`. */
  method SmartGetMeta(env: Env, cache: Cache<(), Meta>, arg: MetaArg, group: string) returns (r: Result<Found>)
    modifies cache
    ensures MetaOutcome(cache.State(), r) == SmartGetMetaSpec(env, old(cache.State()), arg, group)
  {
    if IsFolderArg(env, arg) {
      var p := FolderOf(arg);
      var m, _ := cache.Call(Str(p), (), GetMtime(env, p), FolderMetaOf(env));
      return Locate(m, env, group, p, "");
    }
    if arg.TupleArg? && |arg.items| == 2 && EndsWith(arg.items[0], ".zip") {
      var m := GenerateArchiveMeta(env, Zip, arg.items[0], arg.items[1]);
      return Locate(m, env, group, arg.items[0], arg.items[1]);
    }
    if arg.TupleArg? && |arg.items| == 2 && EndsWith(arg.items[0], ".rar") {
      var m := GenerateArchiveMeta(env, Rar, arg.items[0], arg.items[1]);
      return Locate(m, env, group, arg.items[0], arg.items[1]);
    }
    if arg.TupleArg? {
      return Err(if |arg.items| == 1 then ValueError else AttributeError);
    }
    if EndsWith(arg.s, ".zip") {
      var m := GenerateArchiveMeta(env, Zip, arg.s, "");
      return Locate(m, env, group, arg.s, "");
    }
    if EndsWith(arg.s, ".rar") {
      var m := GenerateArchiveMeta(env, Rar, arg.s, "");
      return Locate(m, env, group, arg.s, "");
    }
    r := Err(ValueError);
  }
}
