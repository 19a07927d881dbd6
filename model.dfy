/** The records of the mod manager: path references, manifests and the
    configuration. */
module Model {
  import opened Wrappers
  import opened PyStr
  import opened PyPath

  /** A path reference: the resource folder a mod unit was found under, the
      container (directory or archive) relative to it, and the folder inside
      an archive ("" for none).  Equality of the datatype is equality of all
      three fields, as for the dataclass. */
  datatype PathRef = PathRef(resourceGroup: string, path: string, subpath: string)

  /** Replace every backslash by a forward slash. */
  function Normalise(s: string): (r: string)
    ensures |r| == |s|
    ensures forall i :: 0 <= i < |s| ==> r[i] == (if s[i] == '\\' then '/' else s[i])
  {
    ReplaceChar(s, '\\', '/')
  }

  /** Normalisation leaves no backslash, is idempotent, and moves nothing. */
  lemma NormaliseProperties(s: string)
    ensures '\\' !in Normalise(s)
    ensures Normalise(Normalise(s)) == Normalise(s)
    ensures forall i :: 0 <= i < |s| && s[i] != '\\' ==> Normalise(s)[i] == s[i]
  {
    var r := Normalise(s);
    forall i | 0 <= i < |r| ensures r[i] != '\\' {
    }
  }

  /** The dataclass constructor with its `__post_init__`: all three fields
      are stored normalised. */
  function MakePathRef(resourceGroup: string, path: string, subpath: string): (p: PathRef)
    ensures '\\' !in p.resourceGroup && '\\' !in p.path && '\\' !in p.subpath
    ensures |p.resourceGroup| == |resourceGroup| && |p.path| == |path| && |p.subpath| == |subpath|
    ensures p == PathRef(Normalise(resourceGroup), Normalise(path), Normalise(subpath))
  {
    NormaliseProperties(resourceGroup);
    NormaliseProperties(path);
    NormaliseProperties(subpath);
    PathRef(Normalise(resourceGroup), Normalise(path), Normalise(subpath))
  }

  /** The `name` property: the basename of `path` without its extension. */
  function Name(p: PathRef): (r: string)
    ensures r + Ext(Basename(p.path)) == Basename(p.path)
    ensures '/' !in r
  {
    SplitExtParts(Basename(p.path));
    var b := Basename(p.path);
    assert forall j :: 0 <= j < |b| ==> b[j] == p.path[LastIndex(p.path, '/') + 1 + j];
    StripExt(b)
  }

  /** A parsed `manifest.json`: a JSON object, here with string values. */
  type Manifest = map<string, string>

  /** Python truthiness of a parsed manifest: present and non-empty. */
  predicate Truthy(m: Option<Manifest>) {
    m.Some? && |m.value| > 0
  }

  /** The `H2Mod` record the manifest index is declared to hold. */
  datatype H2Mod = H2Mod(name: string, description: string)

  /** A configured resource folder and the mtime recorded at its last scan. */
  datatype ModRes = ModRes(path: string, lastModified: int)

  datatype Cfg = Cfg(gamePath: string, resources: seq<ModRes>, lastInstallCheck: int)

  /** Constructing `H2MMCfg` with its defaults: resources default to an
      empty list; the default of `last_install_check` calls
      `datetime.datetime.now()` on the `datetime` class imported from the
      `datetime` module, which has no attribute `datetime`. */
  function MakeCfg(gamePath: string, resources: Option<seq<ModRes>>, lastInstallCheck: Option<int>): (r: Result<Cfg>)
    ensures r.Ok? <==> lastInstallCheck.Some?
    ensures r.Ok? ==> r.value.gamePath == gamePath && r.value.lastInstallCheck == lastInstallCheck.value
    ensures r.Ok? && resources.None? ==> r.value.resources == []
    ensures r.Ok? && resources.Some? ==> r.value.resources == resources.value
    ensures r.Err? ==> r.error == AttributeError
  {
    if lastInstallCheck.None? then Err(AttributeError)
    else Ok(Cfg(gamePath, if resources.Some? then resources.value else [], lastInstallCheck.value))
  }
}
