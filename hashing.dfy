/** Content hashes of mod units (`calculate_hash` and the hashing half of
    `generate_zip_meta` / `generate_rar_meta`).  The digest is the
    environment's `digest` function of everything fed to the hasher. */
module Hashing {
  import opened Wrappers
  import opened PyPath
  import opened Environment

  const ChunkSize: nat := 8192
  const GpuSuffix := ".gpu_resources"
  const StreamSuffix := ".stream"

  /** A running `sha256()` object; its state is what has been fed so far. */
  class Hasher {
    var fed: Bytes

    constructor ()
      ensures fed == []
    {
      fed := [];
    }

    /** `hash.update(chunk)` */
    method Update(chunk: Bytes)
      modifies this
      ensures fed == old(fed) + chunk
    {
      fed := fed + chunk;
    }

    function HexDigest(digest: Bytes -> Hash): Hash
      reads this
    {
      digest(fed)
    }
  }

  function Min(a: int, b: int): int {
    if a <= b then a else b
  }

  /** `f.read(ChunkSize)` on a stream over `data` positioned at `pos`. */
  function ReadChunk(data: Bytes, pos: nat): (chunk: Bytes)
    requires pos <= |data|
    ensures |chunk| <= ChunkSize
    ensures chunk == [] <==> pos == |data|
  {
    data[pos..Min(pos + ChunkSize, |data|)]
  }

  /** The chunks `while chunk := f.read(8192)` yields. */
  function Chunks(data: Bytes): (r: seq<Bytes>)
    decreases |data|
  {
    if data == [] then [] else [ReadChunk(data, 0)] + Chunks(data[|ReadChunk(data, 0)|..])
  }

  function Flatten(chunks: seq<Bytes>): Bytes {
    if chunks == [] then [] else chunks[0] + Flatten(chunks[1..])
  }

  /** Reading in chunks neither loses, adds nor reorders bytes, and every
      chunk is non-empty and at most ChunkSize long. */
  lemma {:induction false} ChunksFlatten(data: Bytes)
    ensures Flatten(Chunks(data)) == data
    ensures forall i :: 0 <= i < |Chunks(data)| ==> 0 < |Chunks(data)[i]| <= ChunkSize
    decreases |data|
  {
    if data != [] {
      var c := ReadChunk(data, 0);
      ChunksFlatten(data[|c|..]);
      assert c + data[|c|..] == data;
    }
  }

  /** Reading one chunk at `pos` extends what has been read by that chunk,
      and leaves the chunks of the rest to be read. */
  lemma ChunksAfter(data: Bytes, pos: nat)
    requires pos < |data|
    ensures pos + |ReadChunk(data, pos)| <= |data|
    ensures data[..pos] + ReadChunk(data, pos) == data[..pos + |ReadChunk(data, pos)|]
    ensures Chunks(data[pos..]) == [ReadChunk(data, pos)] + Chunks(data[pos + |ReadChunk(data, pos)|..])
  {
    var rest := data[pos..];
    assert ReadChunk(rest, 0) == ReadChunk(data, pos);
    assert rest[|ReadChunk(data, pos)|..] == data[pos + |ReadChunk(data, pos)|..];
  }

  /** The `while chunk := f.read(8192): hash.update(chunk)` loop: it feeds
      the chunks of `data` in order, and so `data` itself. */
  method FeedStream(h: Hasher, data: Bytes)
    modifies h
    ensures h.fed == old(h.fed) + data
  {
    var pos: nat := 0;
    ghost var fedChunks: seq<Bytes> := [];
    var chunk := ReadChunk(data, pos);
    while chunk != []
      invariant pos <= |data|
      invariant chunk == ReadChunk(data, pos)
      invariant h.fed == old(h.fed) + data[..pos]
      invariant fedChunks + Chunks(data[pos..]) == Chunks(data)
      decreases |data| - pos
    {
      ChunksAfter(data, pos);
      h.Update(chunk);
      fedChunks := fedChunks + [chunk];
      pos := pos + |chunk|;
      chunk := ReadChunk(data, pos);
    }
    assert data[..pos] == data;
  }

  /** The bytes a unit is hashed over: the target, then the GPU-resource
      sidecar if there is one, then the stream sidecar if there is one. */
  function HashInput(target: Bytes, gpu: Option<Bytes>, stream: Option<Bytes>): (r: Bytes)
    ensures |r| == |target| + (if gpu.Some? then |gpu.value| else 0) + (if stream.Some? then |stream.value| else 0)
  {
    target + (if gpu.Some? then gpu.value else []) + (if stream.Some? then stream.value else [])
  }

  /** The order is fixed: the input starts with the target, and exchanging
      the two sidecars changes it unless their two concatenations agree. */
  lemma HashInputOrder(target: Bytes, gpu: Bytes, stream: Bytes)
    ensures HashInput(target, Some(gpu), Some(stream))[..|target|] == target
    ensures HashInput(target, Some(gpu), Some(stream)) == HashInput(target, Some(stream), Some(gpu))
            <==> gpu + stream == stream + gpu
  {
    var a, b := HashInput(target, Some(gpu), Some(stream)), HashInput(target, Some(stream), Some(gpu));
    assert a == target + (gpu + stream);
    assert b == target + (stream + gpu);
    if a == b {
      assert a[|target|..] == gpu + stream;
      assert b[|target|..] == stream + gpu;
    }
  }

  /** An empty sidecar contributes nothing: it hashes like a missing one. */
  lemma EmptySidecarLikeMissing(target: Bytes, gpu: Option<Bytes>, stream: Option<Bytes>)
    ensures HashInput(target, Some([]), stream) == HashInput(target, None, stream)
    ensures HashInput(target, gpu, Some([])) == HashInput(target, gpu, None)
  {
  }

  /** A sidecar file on disk: absent, or its bytes. */
  function SidecarBytes(env: Env, p: string): Result<Option<Bytes>> {
    if Exists(env, p) then
      var d :- ReadFile(env, p);
      Ok(Some(d))
    else Ok(None)
  }

  /** The bytes of the unit whose target is `name` in directory `path`. */
  function DirUnitInput(env: Env, path: string, name: string): Result<Bytes> {
    var target :- ReadFile(env, Join(path, name));
    var gpu :- SidecarBytes(env, Join(path, name + GpuSuffix));
    var stream :- SidecarBytes(env, Join(path, name + StreamSuffix));
    Ok(HashInput(target, gpu, stream))
  }

  /** The hash `calculate_hash(path, name)` returns. */
  function FileHash(env: Env, path: string, name: string): Result<Hash> {
    var input :- DirUnitInput(env, path, name);
    Ok(env.digest(input))
  }

  /** Feed a sidecar when it is present. */
  method FeedSidecar(h: Hasher, side: Option<Bytes>)
    modifies h
    ensures h.fed == old(h.fed) + (if side.Some? then side.value else [])
  {
    if side.Some? {
      FeedStream(h, side.value);
    }
  }

  /** `calculate_hash`: stream the target and each present sidecar, chunk by
      chunk, into one hasher. */
  method CalculateHash(env: Env, path: string, name: string) returns (r: Result<Hash>)
    ensures r == FileHash(env, path, name)
  {
    var h := new Hasher();
    var target := ReadFile(env, Join(path, name));
    if target.Err? {
      return Err(target.error);
    }
    FeedStream(h, target.value);
    assert h.fed == target.value;
    var gpu := SidecarBytes(env, Join(path, name + GpuSuffix));
    if gpu.Err? {
      return Err(gpu.error);
    }
    FeedSidecar(h, gpu.value);
    var stream := SidecarBytes(env, Join(path, name + StreamSuffix));
    if stream.Err? {
      return Err(stream.error);
    }
    FeedSidecar(h, stream.value);
    assert h.fed == HashInput(target.value, gpu.value, stream.value);
    r := Ok(h.HexDigest(env.digest));
  }

  /** A member sidecar inside an archive: absent from the name list, or the
      bytes read from it. */
  function MemberSidecar(a: Archive, name: string): Result<Option<Bytes>> {
    if name in a.names then
      var d :- ReadMember(a, name);
      Ok(Some(d))
    else Ok(None)
  }

  /** The bytes of the unit whose target is member `file` of archive `a`. */
  function ArchiveUnitInput(a: Archive, file: string): Result<Bytes> {
    var target :- ReadMember(a, file);
    var gpu :- MemberSidecar(a, file + GpuSuffix);
    var stream :- MemberSidecar(a, file + StreamSuffix);
    Ok(HashInput(target, gpu, stream))
  }

  /** Hashing one archive unit, as `generate_zip_meta` and
      `generate_rar_meta` do before they look for a manifest. */
  method HashArchiveUnit(env: Env, a: Archive, file: string) returns (r: Result<Hash>)
    ensures r.Ok? <==> ArchiveUnitInput(a, file).Ok?
    ensures r.Ok? ==> r.value == env.digest(ArchiveUnitInput(a, file).value)
    ensures r.Err? ==> r.error == ArchiveUnitInput(a, file).error
  {
    var h := new Hasher();
    var target := ReadMember(a, file);
    if target.Err? {
      return Err(target.error);
    }
    FeedStream(h, target.value);
    var gpu: Option<Bytes> := None;
    if file + GpuSuffix in a.names {
      var g := ReadMember(a, file + GpuSuffix);
      if g.Err? {
        return Err(g.error);
      }
      FeedStream(h, g.value);
      gpu := Some(g.value);
    }
    var stream: Option<Bytes> := None;
    if file + StreamSuffix in a.names {
      var s := ReadMember(a, file + StreamSuffix);
      if s.Err? {
        return Err(s.error);
      }
      FeedStream(h, s.value);
      stream := Some(s.value);
    }
    assert h.fed == HashInput(target.value, gpu, stream);
    r := Ok(h.HexDigest(env.digest));
  }

  /** Content addressing: a unit in a directory and a unit in an archive
      with the same target and sidecar bytes (same presence, same contents)
      get the same hash. */
  lemma SameBytesSameHash(env: Env, path: string, name: string, a: Archive, file: string,
                          target: Bytes, gpu: Option<Bytes>, stream: Option<Bytes>)
    requires ReadFile(env, Join(path, name)) == Ok(target) && ReadMember(a, file) == Ok(target)
    requires SidecarBytes(env, Join(path, name + GpuSuffix)) == Ok(gpu)
    requires MemberSidecar(a, file + GpuSuffix) == Ok(gpu)
    requires SidecarBytes(env, Join(path, name + StreamSuffix)) == Ok(stream)
    requires MemberSidecar(a, file + StreamSuffix) == Ok(stream)
    ensures FileHash(env, path, name) == Ok(env.digest(ArchiveUnitInput(a, file).value))
    ensures FileHash(env, path, name) == Ok(env.digest(HashInput(target, gpu, stream)))
  {
  }
}
