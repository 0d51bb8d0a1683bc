/**
 * The filesystem as a map from path to node. A node is a regular file with
 * its bytes or a symbolic link with its target. Reads follow links, up to
 * 40 of them; a relative target is read from the directory holding the link.
 */
module FileSystem {
  import opened Wrappers
  import opened Paths

  newtype byte = b: int | 0 <= b < 256

  datatype Node = File(data: seq<byte>) | Link(target: Path)

  type Fs = map<Path, Node>

  datatype IoError = NotFound | LinkLoop | LinkRefused | CopyFailed

  /** The number of symbolic links one lookup may traverse (Linux MAXSYMLINKS). */
  const MaxHops: nat := 40

  /**
   * Where a link at `at` with target `t` leads: an absolute target as it
   * stands; a relative one replaces the last component of `at`, that is, it
   * is read from the directory holding the link.
   */
  function LinkTarget(at: Path, t: Path): (r: Path)
    ensures IsAbsolute(t) || '/' !in at ==> r == t
    ensures !IsAbsolute(t) ==> |r| == PastLastSeparator(at) + |t| && r[PastLastSeparator(at)..] == t
  {
    if IsAbsolute(t) then t else at[..PastLastSeparator(at)] + t
  }

  /** The bytes reached from `p` by following at most `hops` links. */
  function Follow(fs: Fs, p: Path, hops: nat): (r: Option<seq<byte>>)
    ensures p in fs && fs[p].File? ==> r == Some(fs[p].data)
    ensures p !in fs ==> r.None?
    decreases hops
  {
    if p !in fs then None
    else match fs[p]
      case File(d) => Some(d)
      case Link(t) => if hops == 0 then None else Follow(fs, LinkTarget(p, t), hops - 1)
  }

  /** What opening and reading `p` yields. */
  function Contents(fs: Fs, p: Path): Option<seq<byte>> {
    Follow(fs, p, MaxHops)
  }

  /** `Path::exists`: the path names a file, possibly through links; a dangling link does not exist. */
  predicate Exists(fs: Fs, p: Path) {
    Contents(fs, p).Some?
  }

  /** `fs::metadata(p).len()` for a path that exists. */
  function Size(fs: Fs, p: Path): nat
    requires Exists(fs, p)
  {
    |Contents(fs, p).value|
  }

  /** Following more links never loses a file that fewer links reached. */
  lemma {:induction false} FollowMonotone(fs: Fs, p: Path, n: nat, m: nat)
    requires n <= m && Follow(fs, p, n).Some?
    ensures Follow(fs, p, m) == Follow(fs, p, n)
    decreases n
  {
    if fs[p].Link? {
      FollowLink(fs, p, n);
      FollowLink(fs, p, m);
      FollowMonotone(fs, LinkTarget(p, fs[p].target), n - 1, m - 1);
    }
  }

  /** A link with hops to spare reads what its target reads with one hop fewer. */
  lemma FollowLink(fs: Fs, p: Path, n: nat)
    requires p in fs && fs[p].Link? && n > 0
    ensures Follow(fs, p, n) == Follow(fs, LinkTarget(p, fs[p].target), n - 1)
  {
  }

  /** Adding an entry at a path that was absent keeps every lookup that succeeded. */
  lemma {:induction false} FollowFresh(fs: Fs, p: Path, n: nat, k: Path, node: Node)
    requires k !in fs && Follow(fs, p, n).Some?
    ensures Follow(fs[k := node], p, n) == Follow(fs, p, n)
    decreases n
  {
    var grown := fs[k := node];
    assert p != k && p in grown && grown[p] == fs[p];
    if fs[p].Link? {
      var q := LinkTarget(p, fs[p].target);
      FollowLink(fs, p, n);
      FollowLink(grown, p, n);
      assert Follow(grown, p, n) == Follow(grown, q, n - 1);
      FollowFresh(fs, q, n - 1, k, node);
    }
  }

  /** The four bytes every GGUF container starts with: ASCII "GGUF". */
  const GgufMagic: seq<byte> := [0x47, 0x47, 0x55, 0x46]

  lemma GgufMagicIsAscii()
    ensures |GgufMagic| == 4
    ensures forall k :: 0 <= k < 4 ==> GgufMagic[k] as int == "GGUF"[k] as int
  {
  }

  /**
   * `is_gguf_file`: an open or read failure is an error; otherwise the answer
   * is whether the first read filled all four bytes of the header buffer with
   * the magic.
   */
  function IsGgufFile(fs: Fs, p: Path): (r: Result<bool, IoError>)
    ensures r.Err? <==> !Exists(fs, p)
    ensures r == Ok(true) <==>
      Exists(fs, p) && |Contents(fs, p).value| >= 4 && Contents(fs, p).value[..4] == GgufMagic
  {
    match Contents(fs, p)
    case None => Err(NotFound)
    case Some(data) =>
      var n := if |data| < 4 then |data| else 4;
      Ok(n >= 4 && data[..4] == GgufMagic)
  }

  /** How every caller consumes the sniff: `is_gguf_file(p).unwrap_or(false)`. */
  predicate IsGguf(fs: Fs, p: Path) {
    IsGgufFile(fs, p).GetOr(false)
  }

  /** Files shorter than the magic, the empty file included, are never GGUF. */
  lemma ShortFileIsNotGguf(fs: Fs, p: Path)
    requires p in fs && fs[p].File? && |fs[p].data| < 4
    ensures IsGgufFile(fs, p) == Ok(false)
  {
  }

  /** Any file that begins with "GGUF" passes, whatever follows. */
  lemma MagicPrefixIsGguf(fs: Fs, p: Path, rest: seq<byte>)
    requires p in fs && fs[p] == File(GgufMagic + rest)
    ensures IsGguf(fs, p)
  {
    assert (GgufMagic + rest)[..4] == GgufMagic;
  }

  /** The first candidate that exists, scanning in order. */
  function FirstExistingOf(fs: Fs, candidates: seq<Path>): Option<Path> {
    if candidates == [] then None
    else if Exists(fs, candidates[0]) then Some(candidates[0])
    else FirstExistingOf(fs, candidates[1..])
  }

  /**
   * The scan finds nothing exactly when no candidate exists; otherwise it
   * finds a candidate that exists and before which none does.
   */
  lemma {:induction false} FirstExistingOfSpec(fs: Fs, candidates: seq<Path>)
    ensures FirstExistingOf(fs, candidates).None? <==> forall k :: 0 <= k < |candidates| ==> !Exists(fs, candidates[k])
    ensures FirstExistingOf(fs, candidates).Some? ==>
      (exists k :: 0 <= k < |candidates| && candidates[k] == FirstExistingOf(fs, candidates).value
        && Exists(fs, candidates[k])
        && forall j :: 0 <= j < k ==> !Exists(fs, candidates[j]))
  {
    if candidates != [] && !Exists(fs, candidates[0]) {
      var rest := candidates[1..];
      FirstExistingOfSpec(fs, rest);
      assert forall k :: 0 <= k < |rest| ==> rest[k] == candidates[k + 1];
      if FirstExistingOf(fs, rest).Some? {
        var k :| 0 <= k < |rest| && rest[k] == FirstExistingOf(fs, rest).value
          && Exists(fs, rest[k]) && forall j :: 0 <= j < k ==> !Exists(fs, rest[j]);
        assert candidates[k + 1] == rest[k];
        forall j | 0 <= j < k + 1 ensures !Exists(fs, candidates[j]) {
          if j > 0 {
            assert candidates[j] == rest[j - 1];
          }
        }
      } else {
        forall j | 0 <= j < |candidates| ensures !Exists(fs, candidates[j]) {
          if j > 0 {
            assert candidates[j] == rest[j - 1];
          }
        }
      }
    }
  }
}

/**
 * Where the dispatcher looks: its own link directory and the registry
 * daemon's blob store and manifest tree, all below the user's home.
 */
module Layout {
  import opened Wrappers
  import opened Paths

  /** `ggufy_models_dir_with`: the override if given, else `~/.guffy/models`. */
  function ModelsDirWith(linkOverride: Option<Path>, home: Path): (d: Path)
    ensures linkOverride.Some? ==> d == linkOverride.value
    ensures linkOverride.None? ==> d == Push(home, ".guffy/models")
  {
    match linkOverride
    case Some(o) => o
    case None => Push(home, ".guffy/models")
  }

  /** `ollama_blobs_dir`. */
  function BlobsDir(home: Path): Path {
    Push(home, ".ollama/models/blobs")
  }

  /** `ollama_library_manifest_dir`. */
  function ManifestDir(home: Path): Path {
    Push(home, ".ollama/models/manifests/registry.ollama.ai/library")
  }

  /** The link directory, the blob store and the manifest tree are three distinct places under the same home. */
  lemma LocationsDistinct(home: Path)
    ensures ModelsDirWith(None, home) != BlobsDir(home)
    ensures BlobsDir(home) != ManifestDir(home)
    ensures ModelsDirWith(None, home) != ManifestDir(home)
  {
    var a, b, c := ModelsDirWith(None, home), BlobsDir(home), ManifestDir(home);
    assert a[|a| - 2..] == "ls" && b[|b| - 2..] == "bs" && c[|c| - 1] == 'y';
  }
}
