/** What the engine reads from the outside world, as one immutable value:
    the filesystem, what `zipfile` and `rarfile` make of archive files, what
    `json.load` makes of manifest bytes, the SHA-256 hex digest, the working
    directory and the interpreter's remaining recursion depth. */
module Environment {
  import opened Wrappers
  import opened PyStr
  import opened PyPath
  import opened Model

  type Bytes = seq<bv8>

  /** A hex digest. */
  type Hash = string

  /** A filesystem node; a directory lists its entry names as `os.listdir`
      returns them. */
  datatype Node = File(data: Bytes, mtime: int) | Dir(names: seq<string>, mtime: int)

  /** An opened archive: the library that opened it, its `namelist()` and,
      per member name, what reading that member yields (a damaged member
      raises BadZipFile, an encrypted rar member PasswordRequired). */
  datatype Archive = Archive(kind: ArchiveKind, names: seq<string>, members: map<string, Result<Bytes>>)

  datatype ArchiveKind = Zip | Rar

  datatype Env = Env(
    cwd: string,
    fs: map<string, Node>,          // what the operating system finds at each path
    zips: map<string, Result<Archive>>,   // what `zipfile.ZipFile(p)` gives for the file at p
    rars: map<string, Result<Archive>>,   // what `rarfile.RarFile(p)` gives for the file at p
    json: map<Bytes, Manifest>,     // bytes that parse as a manifest object
    digest: Bytes -> Hash,          // `sha256(stream).hexdigest()`
    recursionLimit: nat)            // nested calls still allowed before RecursionError

  /** `os.stat(p)`: the node the operating system finds at path `p`, as the
      program spells it; the empty path names nothing. */
  function Stat(env: Env, p: string): Option<Node> {
    if p != "" && p in env.fs then Some(env.fs[p]) else None
  }

  /** `os.path.exists` */
  predicate Exists(env: Env, p: string) {
    Stat(env, p).Some?
  }

  /** `os.path.isfile` */
  predicate IsFile(env: Env, p: string) {
    Stat(env, p).Some? && Stat(env, p).value.File?
  }

  /** `os.path.isdir` */
  predicate IsDir(env: Env, p: string) {
    Stat(env, p).Some? && Stat(env, p).value.Dir?
  }

  /** `os.path.getmtime` */
  function GetMtime(env: Env, p: string): (r: Result<int>)
    ensures r.Ok? <==> Exists(env, p)
  {
    match Stat(env, p)
    case None => Err(OSError)
    case Some(n) => Ok(n.mtime)
  }

  /** `os.listdir` */
  function Listdir(env: Env, p: string): (r: Result<seq<string>>)
    ensures r.Ok? <==> IsDir(env, p)
  {
    match Stat(env, p)
    case Some(Dir(names, _)) => Ok(names)
    case _ => Err(OSError)
  }

  /** `open(p, "rb").read()` */
  function ReadFile(env: Env, p: string): (r: Result<Bytes>)
    ensures r.Ok? <==> IsFile(env, p)
  {
    match Stat(env, p)
    case Some(File(data, _)) => Ok(data)
    case _ => Err(OSError)
  }

  /** `json.load` on manifest bytes. */
  function ParseManifest(env: Env, data: Bytes): Result<Manifest> {
    if data in env.json then Ok(env.json[data]) else Err(JSONDecodeError)
  }

  /** Opening the archive at `p`: a missing file or a directory is an
      OSError; a file the library does not recognise is BadZipFile for zip
      and NotRarFile for rar. */
  function OpenArchive(env: Env, kind: ArchiveKind, p: string): (r: Result<Archive>)
    ensures r.Ok? ==> r.value.kind == kind
  {
    if !IsFile(env, p) then Err(OSError)
    else
      var table := if kind == Zip then env.zips else env.rars;
      if p !in table then Err(if kind == Zip then BadZipFile else NotRarFile)
      else match table[p]
        case Err(e) => Err(e)
        case Ok(a) => Ok(a.(kind := kind))
  }

  /** The exception for a member name the archive does not hold: `zipfile`
      raises KeyError, `rarfile` raises NoRarEntry. */
  function MissingMember(kind: ArchiveKind): Exc {
    if kind == Zip then KeyError else NoRarEntry
  }

  /** `archive.open(name).read()` */
  function ReadMember(a: Archive, name: string): (r: Result<Bytes>)
    ensures name !in a.members ==> r == Err(MissingMember(a.kind))
  {
    if name in a.members then a.members[name] else Err(MissingMember(a.kind))
  }

  /** Directory listings hold plain entry names: non-empty, without "/". */
  predicate PlainListings(env: Env) {
    forall p | p in env.fs && env.fs[p].Dir? ::
      forall n | n in env.fs[p].names :: n != "" && '/' !in n
  }

  /** No entry name contains a backslash. */
  predicate NoBackslashNames(env: Env) {
    forall p | p in env.fs && env.fs[p].Dir? ::
      forall n | n in env.fs[p].names :: '\\' !in n
  }

  lemma ListdirNames(env: Env, p: string)
    requires Listdir(env, p).Ok?
    ensures PlainListings(env) ==> forall n | n in Listdir(env, p).value :: n != "" && '/' !in n
    ensures NoBackslashNames(env) ==> forall n | n in Listdir(env, p).value :: '\\' !in n
  {
    assert p in env.fs;
  }
}
