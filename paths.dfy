/**
 * Unix paths as strings, with the parts of Rust's `PathBuf` that the
 * dispatcher uses: `push`, `file_name`, `extension` and `set_extension`.
 */
module Paths {
  import opened Wrappers
  import Text

  type Path = string

  /** A path is absolute when it starts at the root. */
  predicate IsAbsolute(p: string) {
    |p| > 0 && p[0] == '/'
  }

  /**
   * `PathBuf::push`: an absolute segment replaces the whole path; otherwise
   * the segment is appended after one separator, which is left out when the
   * path is empty or already ends in '/'.
   */
  function Push(base: Path, seg: string): (p: Path)
    ensures IsAbsolute(seg) ==> p == seg
    ensures !IsAbsolute(seg) ==>
      && |base| <= |p| && p[..|base|] == base
      && (|p| == |base| + |seg| || (|p| == |base| + 1 + |seg| && p[|base|] == '/'))
    ensures |seg| <= |p| && p[|p| - |seg|..] == seg
    ensures !IsAbsolute(seg) ==> (p == base + seg <==> base == [] || base[|base| - 1] == '/')
  {
    if IsAbsolute(seg) then seg
    else if base == [] || base[|base| - 1] == '/' then base + seg
    else base + "/" + seg
  }

  /**
   * The length of `p` up to and including its last '/', or 0 when it has
   * none: `p[..PastLastSeparator(p)]` is the directory part of `p`.
   */
  function PastLastSeparator(p: Path): (e: nat)
    ensures e <= |p| && (e > 0 ==> p[e - 1] == '/')
    ensures e == 0 <==> '/' !in p
  {
    if p == [] then 0
    else if p[|p| - 1] == '/' then |p|
    else
      var e := PastLastSeparator(p[..|p| - 1]);
      assert p == p[..|p| - 1] + [p[|p| - 1]];
      e
  }

  /** Length of `p` once its trailing separators are dropped. */
  function TrimmedEnd(p: Path): (t: nat)
    ensures t <= |p| && (t == 0 || p[t - 1] != '/')
    ensures forall k :: t <= k < |p| ==> p[k] == '/'
  {
    if |p| > 0 && p[|p| - 1] == '/' then TrimmedEnd(p[..|p| - 1]) else |p|
  }

  /** Start of the path component that ends at position `t`. */
  function SegmentStart(p: Path, t: nat): (s: nat)
    requires t <= |p|
    ensures s <= t && '/' !in p[s..t] && (s == 0 || p[s - 1] == '/')
  {
    if t == 0 || p[t - 1] == '/' then t
    else
      var s := SegmentStart(p, t - 1);
      assert p[s..t] == p[s..t - 1] + [p[t - 1]];
      s
  }

  /** `p[a..b]` is a whole component of `p` that can be a file name. */
  predicate IsNameSpan(p: Path, a: nat, b: nat) {
    && a < b <= |p|
    && '/' !in p[a..b]
    && (a == 0 || p[a - 1] == '/')
    && p[a..b] != "." && p[a..b] != ".."
  }

  /** A file-name component of a prefix is one of the whole path. */
  lemma NameSpanOfPrefix(p: Path, s: nat, a: nat, b: nat)
    requires s <= |p| && IsNameSpan(p[..s], a, b)
    ensures IsNameSpan(p, a, b)
  {
    assert p[..s][a..b] == p[a..b];
    assert a == 0 || p[..s][a - 1] == p[a - 1];
  }

  /**
   * The position of `Path::file_name` inside `p`: the last component, where
   * trailing separators and a trailing "." component are skipped, and "..",
   * the root alone, "." alone and the empty path have no file name.
   */
  function FileNameSpan(p: Path): (r: Option<(nat, nat)>)
    ensures r.Some? ==> IsNameSpan(p, r.value.0, r.value.1)
    decreases |p|
  {
    var t := TrimmedEnd(p);
    var s := SegmentStart(p, t);
    var seg := p[s..t];
    if seg == "" || seg == ".." then None
    else if seg == "." then
      if s == 0 then None
      else
        var r := FileNameSpan(p[..s]);
        if r.Some? then
          NameSpanOfPrefix(p, s, r.value.0, r.value.1);
          r
        else r
    else Some((s, t))
  }

  /** Position `k` is passed over when looking for the file name: a separator, or a "." component. */
  predicate Skipped(p: Path, k: nat)
    requires k < |p|
  {
    p[k] == '/' || (p[k] == '.' && (k == 0 || p[k - 1] == '/') && (k + 1 == |p| || p[k + 1] == '/'))
  }

  /** From `from` on, `p` holds only separators and "." components. */
  predicate OnlySkipped(p: Path, from: nat) {
    forall k :: from <= k < |p| ==> Skipped(p, k)
  }

  /** A ".." component ends at position `e` of `p`. */
  predicate DotDotAt(p: Path, e: nat) {
    2 <= e <= |p| && p[e - 2..e] == ".." && (e == 2 || p[e - 3] == '/')
  }

  /** The last component of `p` other than "." is "..". */
  ghost predicate EndsInDotDot(p: Path) {
    exists e: nat :: DotDotAt(p, e) && OnlySkipped(p, e)
  }

  /** What is skipped in a prefix that ends just before a separator or a "." component is skipped in the whole path. */
  lemma OnlySkippedOfPrefix(p: Path, s: nat, from: nat)
    requires 0 < s <= |p| && p[s - 1] == '/' && OnlySkipped(p[..s], from) && OnlySkipped(p, s)
    ensures OnlySkipped(p, from)
  {
    forall k | from <= k < |p| ensures Skipped(p, k) {
      if k < s {
        assert Skipped(p[..s], k);
        assert p[..s][k] == p[k];
        if k + 1 < s {
          assert p[..s][k + 1] == p[k + 1];
        }
        if k > 0 {
          assert p[..s][k - 1] == p[k - 1];
        }
      }
    }
  }

  /** Past the trimmed end there are only separators. */
  lemma TrimmedTailSkipped(p: Path)
    ensures OnlySkipped(p, TrimmedEnd(p))
  {
    var t := TrimmedEnd(p);
    forall k | t <= k < |p| ensures Skipped(p, k) {
      assert p[k] == '/';
    }
  }

  /** A last component ".." makes the path end in "..". */
  lemma DotDotLast(p: Path)
    requires p[SegmentStart(p, TrimmedEnd(p))..TrimmedEnd(p)] == ".."
    ensures EndsInDotDot(p)
  {
    var t := TrimmedEnd(p);
    TrimmedTailSkipped(p);
    assert DotDotAt(p, t) && OnlySkipped(p, t);
  }

  /** A last component "." is skipped together with what follows it. */
  lemma DotLast(p: Path)
    requires p[SegmentStart(p, TrimmedEnd(p))..TrimmedEnd(p)] == "."
    ensures OnlySkipped(p, SegmentStart(p, TrimmedEnd(p)))
  {
    var t := TrimmedEnd(p);
    var s := SegmentStart(p, t);
    TrimmedTailSkipped(p);
    assert p[s] == p[s..t][0] == '.' && t == s + 1;
    assert Skipped(p, s);
  }

  /** A ".." component of a prefix is one of the whole path. */
  lemma DotDotOfPrefixAt(p: Path, s: nat, e: nat)
    requires s <= |p| && DotDotAt(p[..s], e)
    ensures DotDotAt(p, e)
  {
    assert p[e - 2..e] == p[..s][e - 2..e];
    assert e == 2 || p[e - 3] == p[..s][e - 3];
  }

  /** A prefix ending in ".." makes the whole path end in "..", when the rest is skipped. */
  lemma DotDotOfPrefix(p: Path, s: nat)
    requires 0 < s <= |p| && p[s - 1] == '/' && EndsInDotDot(p[..s]) && OnlySkipped(p, s)
    ensures EndsInDotDot(p)
  {
    var e: nat :| DotDotAt(p[..s], e) && OnlySkipped(p[..s], e);
    OnlySkippedOfPrefix(p, s, e);
    DotDotOfPrefixAt(p, s, e);
  }

  /**
   * The file name is the last component that is not ".", with only
   * separators and "." components after it; there is none when nothing
   * else is left, or when that last component is "..".
   */
  lemma {:induction false} FileNameSpanSpec(p: Path)
    ensures var r := FileNameSpan(p);
      r.Some? ==> IsNameSpan(p, r.value.0, r.value.1) && OnlySkipped(p, r.value.1)
    ensures FileNameSpan(p).None? ==> OnlySkipped(p, 0) || EndsInDotDot(p)
    decreases |p|
  {
    var t := TrimmedEnd(p);
    var s := SegmentStart(p, t);
    var seg := p[s..t];
    TrimmedTailSkipped(p);
    if seg == ".." {
      DotDotLast(p);
    } else if seg == "." {
      DotLast(p);
      if s > 0 {
        FileNameSpanSpec(p[..s]);
        var r := FileNameSpan(p[..s]);
        if r.Some? {
          OnlySkippedOfPrefix(p, s, r.value.1);
        } else if OnlySkipped(p[..s], 0) {
          OnlySkippedOfPrefix(p, s, 0);
        } else {
          DotDotOfPrefix(p, s);
        }
      }
    }
  }

  /** `Path::file_name`. */
  function FileName(p: Path): (r: Option<string>)
    ensures r.Some? ==> r.value != "" && '/' !in r.value && r.value != "." && r.value != ".."
  {
    match FileNameSpan(p)
    case None => None
    case Some((s, e)) => Some(p[s..e])
  }

  /**
   * `Path::file_name` is the last component that is not ".", with only
   * separators and "." components after it; there is none when nothing
   * else is left or that component is "..".
   */
  lemma FileNameSpec(p: Path)
    ensures FileName(p).Some? ==>
      exists a: nat, b: nat :: IsNameSpan(p, a, b) && OnlySkipped(p, b) && FileName(p).value == p[a..b]
    ensures FileName(p).None? ==> OnlySkipped(p, 0) || EndsInDotDot(p)
  {
    FileNameSpanSpec(p);
  }

  /** Position `d` holds the last '.' of `name`, and it is not the first character. */
  predicate LastDotAt(name: string, d: int) {
    0 < d < |name| && name[d] == '.' && '.' !in name[d + 1..]
  }

  /**
   * The extension of a file name: what follows its last '.', unless that dot
   * is the name's first character (".bashrc" has none, "a." has "").
   */
  function NameExtension(name: string): (r: Option<string>)
    ensures r.Some? ==> exists d :: 0 < d < |name| && name[d] == '.' && r.value == name[d + 1..]
    ensures r.Some? ==> '.' !in r.value
    ensures '.' !in name ==> r.None?
    ensures forall d :: LastDotAt(name, d) ==> r == Some(name[d + 1..])
    ensures r.None? <==> '.' !in name || Text.LastIndexOf(name, '.') == 0
  {
    if '.' !in name then None
    else
      var d := Text.LastIndexOf(name, '.');
      if d == 0 then None else Some(name[d + 1..])
  }

  /** `Path::extension`. */
  function Extension(p: Path): (r: Option<string>)
    ensures r.Some? ==> FileName(p).Some? && '.' !in r.value
  {
    match FileName(p)
    case None => None
    case Some(name) => NameExtension(name)
  }

  /**
   * `PathBuf::set_extension(ext)` on a path that has no extension: the path
   * is cut right after its file name and "." + `ext` appended; a path
   * without a file name is left as it is.
   */
  function SetExtension(p: Path, ext: string): (r: Path)
    requires Extension(p).None?
    ensures FileName(p).None? ==> r == p
    ensures FileNameSpan(p).Some? ==> r == p[..FileNameSpan(p).value.1] + "." + ext
  {
    match FileNameSpan(p)
    case None => p
    case Some((_, e)) => p[..e] + "." + ext
  }

  /** A single plain component: non-empty, no separator, not "." or "..". */
  predicate PlainName(name: string) {
    name != "" && '/' !in name && name != "." && name != ".."
  }

  lemma {:induction false} SegmentStartAt(p: Path, t: nat, k: nat)
    requires k <= t <= |p| && '/' !in p[k..t] && (k == 0 || p[k - 1] == '/')
    ensures SegmentStart(p, t) == k
    decreases t
  {
    if t > k {
      assert p[t - 1] == p[k..t][t - 1 - k];
      assert p[k..t - 1] == p[k..t][..t - 1 - k];
      SegmentStartAt(p, t - 1, k);
    }
  }

  /** Pushing a plain name onto a directory makes that name the file name. */
  lemma PushedFileName(dir: Path, name: string)
    requires PlainName(name)
    ensures FileNameSpan(Push(dir, name)) == Some((|Push(dir, name)| - |name|, |Push(dir, name)|))
    ensures FileName(Push(dir, name)) == Some(name)
    ensures Extension(Push(dir, name)) == NameExtension(name)
  {
    var p := Push(dir, name);
    var k := |p| - |name|;
    assert p[k..] == name;
    assert p[|p| - 1] == name[|name| - 1];
    assert TrimmedEnd(p) == |p|;
    assert k == 0 || p[k - 1] == '/';
    assert p[k..|p|] == name;
    SegmentStartAt(p, |p|, k);
  }

  /**
   * For a plain name without an extension, `set_extension("gguf")` after a
   * push is the same as pushing the name with ".gguf" appended.
   */
  lemma PushedSetExtension(dir: Path, name: string)
    requires PlainName(name) && NameExtension(name).None?
    ensures Extension(Push(dir, name)).None?
    ensures SetExtension(Push(dir, name), "gguf") == Push(dir, name + ".gguf")
  {
    var p := Push(dir, name);
    PushedFileName(dir, name);
    assert SetExtension(p, "gguf") == p + ".gguf" by {
      SetExtensionAtEnd(p, "gguf");
    }
    assert Push(dir, name + ".gguf") == p + ".gguf" by {
      PushAppend(dir, name, ".gguf");
    }
  }

  /** When the file name ends the path, the extension is appended to the whole path. */
  lemma SetExtensionAtEnd(p: Path, ext: string)
    requires Extension(p).None? && FileNameSpan(p).Some? && FileNameSpan(p).value.1 == |p|
    ensures SetExtension(p, ext) == p + "." + ext
  {
    assert p[..|p|] == p;
  }

  /** Appending to a relative segment appends to the pushed path. */
  lemma PushAppend(dir: Path, seg: string, suffix: string)
    requires seg != "" && !IsAbsolute(seg)
    ensures Push(dir, seg + suffix) == Push(dir, seg) + suffix
  {
    assert (seg + suffix)[0] == seg[0];
    if dir == [] || dir[|dir| - 1] == '/' {
      assert dir + (seg + suffix) == dir + seg + suffix;
    } else {
      assert dir + "/" + (seg + suffix) == dir + "/" + seg + suffix;
    }
  }

  /** "llama3.2" already has the extension "2", so no ".gguf" is added to it. */
  lemma DottedNameHasExtension(dir: Path)
    ensures Extension(Push(dir, "llama3.2")) == Some("2")
  {
    PushedFileName(dir, "llama3.2");
    DottedName();
  }

  lemma DottedName()
    ensures NameExtension("llama3.2") == Some("2")
  {
    var d := Text.LastIndexOf("llama3.2", '.');
    assert "llama3.2"[d] == '.';
    assert d == 6;
  }

  /** A name whose only dot is its first character has no extension. */
  lemma HiddenNameHasNoExtension(dir: Path)
    ensures Extension(Push(dir, ".env")).None?
  {
    PushedFileName(dir, ".env");
    HiddenName();
  }

  lemma HiddenName()
    ensures NameExtension(".env").None?
  {
    var d := Text.LastIndexOf(".env", '.');
    assert ".env"[d] == '.';
    assert d == 0;
  }
}
