/** The POSIX `os.path` functions the core calls, on "/"-separated strings.
    The current directory, which `abspath` and `relpath` consult, is a
    parameter. */
module PyPath {
  import opened Wrappers
  import opened PyStr

  predicate AllChar(s: string, c: char) {
    forall i :: 0 <= i < |s| ==> s[i] == c
  }

  /** `os.path.join(a, b)`: an absolute `b` replaces `a`; otherwise a "/"
      is put between them unless `a` is empty or already ends with one. */
  function Join(a: string, b: string): string
  {
    if b != [] && b[0] == '/' then b
    else if a == [] || a[|a| - 1] == '/' then a + b
    else a + ['/'] + b
  }

  /** `os.path.basename(p)`: what follows the last "/". */
  function Basename(p: string): (r: string)
    ensures r == p[LastIndex(p, '/') + 1..]
  {
    p[LastIndex(p, '/') + 1..]
  }

  function RStripChar(s: string, c: char): (r: string)
    ensures |r| <= |s| && r == s[..|r|]
  {
    if s != [] && s[|s| - 1] == c then RStripChar(s[..|s| - 1], c) else s
  }

  /** `os.path.dirname(p)`: what precedes the last "/", without trailing
      slashes unless it consists of slashes only. */
  function Dirname(p: string): string {
    var head := p[..LastIndex(p, '/') + 1];
    if head != "" && !AllChar(head, '/') then RStripChar(head, '/') else head
  }

  /** Where `os.path.splitext(p)` cuts `p`, or -1 when the extension is
      empty: at the last ".", provided it lies in the last path component
      and is preceded in that component by some character other than ".". */
  function ExtStart(p: string): (k: int)
    ensures -1 <= k < |p|
    ensures k >= 0 ==> p[k] == '.'
  {
    var si, di := LastIndex(p, '/'), LastIndex(p, '.');
    if di > si && !AllChar(p[si + 1..di], '.') then di else -1
  }

  /** `os.path.splitext(p)[1]` */
  function Ext(p: string): string {
    var k := ExtStart(p);
    if k >= 0 then p[k..] else ""
  }

  /** `os.path.splitext(p)[0]` */
  function StripExt(p: string): string {
    var k := ExtStart(p);
    if k >= 0 then p[..k] else p
  }

  /** `splitext` splits: root and extension put back together give `p`,
      and a non-empty extension starts with "." and contains no "/". */
  lemma SplitExtParts(p: string)
    ensures StripExt(p) + Ext(p) == p
    ensures Ext(p) != "" ==> Ext(p)[0] == '.' && '/' !in Ext(p)
  {
    var k := ExtStart(p);
    if k >= 0 {
      assert StripExt(p) + Ext(p) == p by {
        assert p[..k] + p[k..] == p;
      }
      ExtNoSlash(p, k);
    }
  }

  lemma ExtNoSlash(p: string, k: int)
    requires k == ExtStart(p) && k >= 0
    ensures '/' !in Ext(p)
  {
    var si := LastIndex(p, '/');
    assert si < k;
    forall j | 0 <= j < |Ext(p)| ensures Ext(p)[j] != '/' {
      assert Ext(p)[j] == p[k + j];
    }
  }

  /** The component loop of `posixpath.normpath`: drop "" and ".", and let
      ".." cancel the previous component where one can be cancelled. */
  function NormComps(comps: seq<string>, absolute: bool, acc: seq<string>): seq<string>
    decreases |comps|
  {
    if comps == [] then acc
    else
      var c := comps[0];
      if c == "" || c == "." then NormComps(comps[1..], absolute, acc)
      else if c != ".." || (!absolute && acc == []) || (acc != [] && acc[|acc| - 1] == "..") then
        NormComps(comps[1..], absolute, acc + [c])
      else if acc != [] then NormComps(comps[1..], absolute, acc[..|acc| - 1])
      else NormComps(comps[1..], absolute, acc)
  }

  /** `os.path.normpath(p)` */
  function Normpath(p: string): string {
    if p == "" then "."
    else
      var slashes := if StartsWith(p, "//") && !StartsWith(p, "///") then "//"
                     else if StartsWith(p, "/") then "/" else "";
      var r := slashes + JoinWith(NormComps(Split(p, '/'), slashes != "", []), "/");
      if r == "" then "." else r
  }

  /** `os.path.abspath(p)` with working directory `cwd`. */
  function Abspath(cwd: string, p: string): string {
    Normpath(if StartsWith(p, "/") then p else Join(cwd, p))
  }

  function NonEmpty(parts: seq<string>): (r: seq<string>)
    ensures forall i :: 0 <= i < |r| ==> r[i] != ""
  {
    if parts == [] then []
    else if parts[0] == "" then NonEmpty(parts[1..])
    else [parts[0]] + NonEmpty(parts[1..])
  }

  function CommonPrefixLength(a: seq<string>, b: seq<string>): (n: nat)
    ensures n <= |a| && n <= |b| && a[..n] == b[..n]
  {
    if a == [] || b == [] || a[0] != b[0] then 0
    else 1 + CommonPrefixLength(a[1..], b[1..])
  }

  function Repeat(s: string, n: nat): (r: seq<string>)
    ensures |r| == n
  {
    if n == 0 then [] else [s] + Repeat(s, n - 1)
  }

  /** `os.path.relpath(path, start)` with working directory `cwd`; an empty
      `path` is a ValueError. */
  function Relpath(cwd: string, path: string, start: string): Result<string> {
    if path == "" then Err(ValueError)
    else
      var startList := NonEmpty(Split(Abspath(cwd, start), '/'));
      var pathList := NonEmpty(Split(Abspath(cwd, path), '/'));
      var i := CommonPrefixLength(startList, pathList);
      var rel := Repeat("..", |startList| - i) + pathList[i..];
      Ok(if rel == [] then "." else JoinWith(rel, "/"))
  }
}
