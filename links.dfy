/**
 * The link materializer: puts a discovered weight file into the tool's own
 * link directory under a stable name, as a symbolic link or, when that
 * fails, as a byte copy; and the lookup of a bare token in that directory.
 */
module Links {
  import opened Wrappers
  import opened Paths
  import opened FileSystem
  import Layout

  /**
   * The file a write through `p` lands on: `p` itself when it is absent or a
   * regular file, otherwise the end of its link chain, each target read from
   * its link's directory (a dangling chain ends at a path that the write
   * creates). Too many links give None.
   */
  function WriteTarget(m: Fs, p: Path, hops: nat): (r: Option<Path>)
    ensures r.Some? ==> r.value !in m || m[r.value].File?
    decreases hops
  {
    if p !in m then Some(p)
    else match m[p]
      case File(_) => Some(p)
      case Link(t) => if hops == 0 then None else WriteTarget(m, LinkTarget(p, t), hops - 1)
  }

  /** After writing `d` at the write target of `p`, reading `p` yields `d`. */
  lemma {:induction false} WriteThrough(m: Fs, p: Path, hops: nat, d: seq<byte>)
    requires WriteTarget(m, p, hops).Some?
    ensures Follow(m[WriteTarget(m, p, hops).value := File(d)], p, hops) == Some(d)
    decreases hops
  {
    var t := WriteTarget(m, p, hops).value;
    if p in m && m[p].Link? {
      var q := LinkTarget(p, m[p].target);
      assert WriteTarget(m, p, hops) == WriteTarget(m, q, hops - 1);
      WriteThrough(m, q, hops - 1, d);
      var written := m[t := File(d)];
      assert p != t && written[p] == m[p];
      assert Follow(written, p, hops) == Follow(written, q, hops - 1);
    }
  }

  /** `fs::copy(src, dst)`: reads all of `src`, then creates or truncates the file `dst` leads to. */
  function CopyFile(nodes: Fs, src: Path, dst: Path, copyOk: bool): (Fs, Result<(), IoError>) {
    match Contents(nodes, src)
    case None => (nodes, Err(NotFound))
    case Some(data) =>
      if !copyOk then (nodes, Err(CopyFailed))
      else match WriteTarget(nodes, dst, MaxHops)
        case None => (nodes, Err(LinkLoop))
        case Some(t) => (nodes[t := File(data)], Ok(()))
  }

  /** The link directory once a present destination has been removed under `force`. */
  function Cleared(nodes: Fs, dst: Path): Fs {
    if Exists(nodes, dst) then nodes - {dst} else nodes
  }

  /**
   * The materializer as a function of the filesystem: skip a present
   * destination unless forced; remove it when forced; try a symbolic link
   * (possible when `symlinkOk` and nothing occupies the name) and fall back
   * to a copy, whose error alone is reported.
   */
  function Materialize(nodes: Fs, src: Path, dst: Path, force: bool, symlinkOk: bool, copyOk: bool)
    : (r: (Fs, Result<(), IoError>))
    ensures r.1.Ok? ==> dst in r.0
    ensures r.1.Err? ==> r.0 == Cleared(nodes, dst)
  {
    if Exists(nodes, dst) && !force then (nodes, Ok(()))
    else
      var cleared := Cleared(nodes, dst);
      if symlinkOk && dst !in cleared then (cleared[dst := Link(src)], Ok(()))
      else CopyFile(cleared, src, dst, copyOk)
  }

  /** The tool's link directory, as the process sees the filesystem. */
  class LinkStore {
    var nodes: Fs

    constructor(initial: Fs)
      ensures nodes == initial
    {
      nodes := initial;
    }

    /** `fs::remove_file`, whose error the materializer ignores. */
    method RemoveFile(p: Path)
      modifies this
      ensures nodes == old(nodes) - {p}
    {
      nodes := nodes - {p};
    }

    /** `symlink(src, dst)`: fails when the name is taken or the platform refuses (`ok` false). */
    method Symlink(src: Path, dst: Path, ok: bool) returns (r: Result<(), IoError>)
      modifies this
      ensures ok && dst !in old(nodes) ==> r.Ok? && nodes == old(nodes)[dst := Link(src)]
      ensures !(ok && dst !in old(nodes)) ==> r.Err? && nodes == old(nodes)
    {
      if ok && dst !in nodes {
        nodes := nodes[dst := Link(src)];
        r := Ok(());
      } else {
        r := Err(LinkRefused);
      }
    }

    /** `fs::copy(src, dst)`. */
    method Copy(src: Path, dst: Path, ok: bool) returns (r: Result<(), IoError>)
      modifies this
      ensures (nodes, r) == CopyFile(old(nodes), src, dst, ok)
    {
      var data := Contents(nodes, src);
      if data.None? {
        return Err(NotFound);
      }
      if !ok {
        return Err(CopyFailed);
      }
      var target := WriteTarget(nodes, dst, MaxHops);
      if target.None? {
        return Err(LinkLoop);
      }
      nodes := nodes[target.value := File(data.value)];
      r := Ok(());
    }

    /** The body shared by both materializers once the destination is known. */
    method LinkAt(src: Path, dst: Path, force: bool, symlinkOk: bool, copyOk: bool) returns (r: Result<(), IoError>)
      modifies this
      ensures (nodes, r) == Materialize(old(nodes), src, dst, force, symlinkOk, copyOk)
    {
      if Exists(nodes, dst) {
        if force {
          RemoveFile(dst);
        } else {
          return Ok(());
        }
      }
      var linked := Symlink(src, dst, symlinkOk);
      if linked.Ok? {
        return Ok(());
      }
      r := Copy(src, dst, copyOk);
    }

    /** `symlink_into_guffy`: the link keeps the source's own file name. */
    method SymlinkInto(src: Path, linkOverride: Option<Path>, home: Path, force: bool, symlinkOk: bool, copyOk: bool)
      returns (r: Result<(), IoError>)
      requires FileName(src).Some?
      modifies this
      ensures (nodes, r) == Materialize(old(nodes), src,
        Push(Layout.ModelsDirWith(linkOverride, home), FileName(src).value), force, symlinkOk, copyOk)
    {
      var name := FileName(src).value;
      var dst := Layout.ModelsDirWith(linkOverride, home);
      dst := Push(dst, name);
      r := LinkAt(src, dst, force, symlinkOk, copyOk);
    }

    /** `symlink_named_into_guffy`: the link gets the given name. */
    method SymlinkNamedInto(src: Path, linkName: string, linkOverride: Option<Path>, home: Path,
                            force: bool, symlinkOk: bool, copyOk: bool)
      returns (r: Result<(), IoError>)
      modifies this
      ensures (nodes, r) == Materialize(old(nodes), src,
        Push(Layout.ModelsDirWith(linkOverride, home), linkName), force, symlinkOk, copyOk)
    {
      var dst := Layout.ModelsDirWith(linkOverride, home);
      dst := Push(dst, linkName);
      r := LinkAt(src, dst, force, symlinkOk, copyOk);
    }
  }

  /** Without `force`, a destination that already exists is left alone and the call succeeds. */
  lemma SkipWhenPresent(nodes: Fs, src: Path, dst: Path, symlinkOk: bool, copyOk: bool)
    requires Exists(nodes, dst)
    ensures Materialize(nodes, src, dst, false, symlinkOk, copyOk) == (nodes, Ok(()))
  {
  }

  /**
   * When the materializer does its work and succeeds, the destination reads
   * what the source read once the old destination was cleared, whether it
   * made a link or a copy. The source must resolve within one link fewer
   * than the kernel allows, since the new link adds one, and the link's
   * target must name the source from the link's directory: an absolute
   * source, or a destination in the working directory.
   */
  lemma LinkedReadsSource(nodes: Fs, src: Path, dst: Path, force: bool, symlinkOk: bool, copyOk: bool)
    requires LinkTarget(dst, src) == src
    requires force || !Exists(nodes, dst)
    requires Follow(Cleared(nodes, dst), src, MaxHops - 1).Some?
    requires Materialize(nodes, src, dst, force, symlinkOk, copyOk).1.Ok?
    ensures Contents(Materialize(nodes, src, dst, force, symlinkOk, copyOk).0, dst) == Contents(Cleared(nodes, dst), src)
  {
    var cleared := Cleared(nodes, dst);
    FollowMonotone(cleared, src, MaxHops - 1, MaxHops);
    if symlinkOk && dst !in cleared {
      FollowFresh(cleared, src, MaxHops - 1, dst, Link(src));
    } else {
      var data := Contents(cleared, src).value;
      WriteThrough(cleared, dst, MaxHops, data);
    }
  }

  /**
   * Two calls without `force`: once the first has succeeded, the second
   * changes nothing and succeeds, whatever its symlink and copy outcomes.
   */
  lemma IdempotentWithoutForce(nodes: Fs, src: Path, dst: Path, s1: bool, c1: bool, s2: bool, c2: bool)
    requires LinkTarget(dst, src) == src
    requires Follow(nodes, src, MaxHops - 1).Some?
    requires Materialize(nodes, src, dst, false, s1, c1).1.Ok?
    ensures var after := Materialize(nodes, src, dst, false, s1, c1).0;
      Materialize(after, src, dst, false, s2, c2) == (after, Ok(()))
  {
    if !Exists(nodes, dst) {
      assert Cleared(nodes, dst) == nodes;
      LinkedReadsSource(nodes, src, dst, false, s1, c1);
      FollowMonotone(nodes, src, MaxHops - 1, MaxHops);
    }
  }

  /**
   * A failure is only ever the copy's: the symbolic link could not be made,
   * nothing but the forced removal happened, and the source was unreadable,
   * the copy failed, or the destination's links loop. Conversely, when the
   * link cannot be made and the copy fails, the call fails.
   */
  lemma FailsOnlyWhenCopyFails(nodes: Fs, src: Path, dst: Path, force: bool, symlinkOk: bool, copyOk: bool)
    ensures var (after, r) := Materialize(nodes, src, dst, force, symlinkOk, copyOk);
      var cleared := Cleared(nodes, dst);
      r.Err? <==>
        && (force || !Exists(nodes, dst))
        && !(symlinkOk && dst !in cleared)
        && (Contents(cleared, src).None? || !copyOk || WriteTarget(cleared, dst, MaxHops).None?)
    ensures var (after, r) := Materialize(nodes, src, dst, force, symlinkOk, copyOk);
      r.Err? ==> after == Cleared(nodes, dst)
  {
    var cleared := Cleared(nodes, dst);
    if (force || !Exists(nodes, dst)) && !(symlinkOk && dst !in cleared) {
      assert Materialize(nodes, src, dst, force, symlinkOk, copyOk) == CopyFile(cleared, src, dst, copyOk);
    }
  }

  /** With working symbolic links and a name nothing occupies, the result is exactly one new link. */
  lemma FreshNameGetsLink(nodes: Fs, src: Path, dst: Path, force: bool, copyOk: bool)
    requires dst !in nodes
    ensures Materialize(nodes, src, dst, force, true, copyOk) == (nodes[dst := Link(src)], Ok(()))
  {
  }

  /**
   * Only the destination entry and, on the copy path, the file the copy
   * writes through it may change; every other path keeps its entry.
   */
  lemma TouchesOnlyDestination(nodes: Fs, src: Path, dst: Path, force: bool, symlinkOk: bool, copyOk: bool, q: Path)
    requires q != dst && Some(q) != WriteTarget(Cleared(nodes, dst), dst, MaxHops)
    ensures var after := Materialize(nodes, src, dst, force, symlinkOk, copyOk).0;
      (q in after <==> q in nodes) && (q in nodes ==> after[q] == nodes[q])
  {
  }

  /**
   * A dangling link at the destination is not replaced even under `force`:
   * `exists` follows it and reports nothing there, the symbolic link then
   * fails on the taken name, and the copy writes through the dangling link,
   * creating the file its target names. The link itself stays.
   */
  lemma DanglingLinkWrittenThrough(nodes: Fs, src: Path, dst: Path, t: Path, symlinkOk: bool)
    requires dst in nodes && nodes[dst] == Link(t) && LinkTarget(dst, t) !in nodes
    requires Contents(nodes, src).Some?
    ensures Materialize(nodes, src, dst, true, symlinkOk, true)
      == (nodes[LinkTarget(dst, t) := File(Contents(nodes, src).value)], Ok(()))
    ensures Materialize(nodes, src, dst, true, symlinkOk, true).0[dst] == Link(t)
  {
    assert !Exists(nodes, dst);
    assert LinkTarget(dst, t) != dst;
  }

  /**
   * A relative source is stored as it was given, so the new link reads it
   * from the link directory: when nothing is there, the fresh link dangles
   * although the call succeeded.
   */
  lemma RelativeSourceDangles(nodes: Fs, src: Path, dst: Path, force: bool, copyOk: bool)
    requires dst !in nodes && LinkTarget(dst, src) != dst && LinkTarget(dst, src) !in nodes
    ensures Materialize(nodes, src, dst, force, true, copyOk).1.Ok?
    ensures !Exists(Materialize(nodes, src, dst, force, true, copyOk).0, dst)
  {
  }

  /**
   * A second call after such a dangling link is not idempotent: `exists`
   * reports nothing, the link fails on the taken name, and the copy writes
   * the source's bytes through the dangling link, creating a file.
   */
  lemma RelativeSourceSecondCallCopies(nodes: Fs, src: Path, dst: Path, force: bool, s2: bool)
    requires dst !in nodes && LinkTarget(dst, src) != dst && LinkTarget(dst, src) !in nodes
    requires Contents(nodes, src).Some?
    ensures var after := Materialize(nodes, src, dst, force, true, true).0;
      Materialize(after, src, dst, false, s2, true)
        == (after[LinkTarget(dst, src) := File(Contents(nodes, src).value)], Ok(()))
  {
    var after := nodes[dst := Link(src)];
    FreshNameGetsLink(nodes, src, dst, force, true);
    var t := LinkTarget(dst, src);
    assert !Exists(after, dst) by {
      assert Follow(after, dst, MaxHops) == Follow(after, t, MaxHops - 1);
    }
    assert Cleared(after, dst) == after;
    assert WriteTarget(after, dst, MaxHops) == Some(t);
    FollowFresh(nodes, src, MaxHops, dst, Link(src));
    assert Materialize(after, src, dst, false, s2, true) == CopyFile(after, src, dst, true);
  }

  /**
   * `resolve_model_ref`: the token below the link directory if that exists,
   * otherwise, when it has no extension, the same path with ".gguf" if that
   * exists.
   */
  function ResolveModelRef(fs: Fs, linkOverride: Option<Path>, home: Path, model: string): (r: Option<Path>)
    ensures r.Some? ==> Exists(fs, r.value)
  {
    var p := Push(Layout.ModelsDirWith(linkOverride, home), model);
    if Exists(fs, p) then Some(p)
    else
      var p2 := if Extension(p).None? then SetExtension(p, "gguf") else p;
      if Exists(fs, p2) then Some(p2) else None
  }

  /**
   * For a plain file name, the lookup tries the name and then the name with
   * ".gguf" appended (only when it has no extension), in that order.
   */
  lemma ResolveModelRefPlain(fs: Fs, linkOverride: Option<Path>, home: Path, model: string)
    requires PlainName(model)
    ensures var dir := Layout.ModelsDirWith(linkOverride, home);
      ResolveModelRef(fs, linkOverride, home, model) ==
        if Exists(fs, Push(dir, model)) then Some(Push(dir, model))
        else if NameExtension(model).None? && Exists(fs, Push(dir, model + ".gguf")) then Some(Push(dir, model + ".gguf"))
        else None
  {
    var dir := Layout.ModelsDirWith(linkOverride, home);
    PushedFileName(dir, model);
    if NameExtension(model).None? {
      PushedSetExtension(dir, model);
    }
  }

  /** An absolute token ignores the link directory altogether. */
  lemma AbsoluteModelIgnoresLinkDir(fs: Fs, o1: Option<Path>, h1: Path, o2: Option<Path>, h2: Path, model: string)
    requires IsAbsolute(model)
    ensures ResolveModelRef(fs, o1, h1, model) == ResolveModelRef(fs, o2, h2, model)
    ensures Exists(fs, model) ==> ResolveModelRef(fs, o1, h1, model) == Some(model)
  {
  }
}
