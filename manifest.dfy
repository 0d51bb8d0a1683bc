/**
 * The registry daemon's manifests: a manifest is a JSON document; every
 * string in it that starts with "sha256:" names a blob in the blob store.
 * The resolver keeps the blobs that exist, sniffs them, and picks the
 * largest GGUF blob as the model's weights.
 */
module Manifest {
  import opened Wrappers
  import opened Paths
  import opened FileSystem
  import Text
  import Layout

  /**
   * An already-parsed JSON value; numbers, booleans and null are `JOther`.
   * An object's members are in the order the parser yields them. serde_json
   * without its `preserve_order` feature yields them sorted by key, and that
   * order fixes the order of collection and so which of two blobs of equal
   * size is chosen.
   */
  datatype Json =
    | JString(s: string)
    | JArray(items: seq<Json>)
    | JObject(members: seq<(string, Json)>)
    | JOther

  /** Every string value of `v`, depth first, in array and object order; object keys are not values. */
  function Leaves(v: Json): seq<string>
    decreases v, 1
  {
    match v
    case JString(s) => [s]
    case JArray(items) => LeavesOfItems(items)
    case JObject(members) => LeavesOfMembers(members)
    case JOther => []
  }

  function LeavesOfItems(items: seq<Json>): seq<string>
    decreases items, 0
  {
    if items == [] then []
    else LeavesOfItems(items[..|items| - 1]) + Leaves(items[|items| - 1])
  }

  function LeavesOfMembers(members: seq<(string, Json)>): seq<string>
    decreases members, 0
  {
    if members == [] then []
    else
      var last := members[|members| - 1];
      assert last.1 < last;
      LeavesOfMembers(members[..|members| - 1]) + Leaves(last.1)
  }

  /** A content address as the manifest writes it. */
  predicate IsDigest(s: string) {
    Text.StartsWith(s, "sha256:")
  }

  /** The blob file of a digest: `s.replace(":", "-")` below the blob store. */
  function BlobPath(blobsDir: Path, digest: string): Path {
    Push(blobsDir, Text.ReplaceChar(digest, ':', '-'))
  }

  /** The blob paths `collect_digests` pushes for the strings `ss`, in order. */
  function BlobsFor(fs: Fs, blobsDir: Path, ss: seq<string>): seq<Path> {
    if ss == [] then []
    else
      var s := ss[|ss| - 1];
      var p := BlobPath(blobsDir, s);
      BlobsFor(fs, blobsDir, ss[..|ss| - 1]) + (if IsDigest(s) && Exists(fs, p) then [p] else [])
  }

  /** What `collect_digests(v, out)` appends to `out`. */
  function Digests(fs: Fs, blobsDir: Path, v: Json): seq<Path> {
    BlobsFor(fs, blobsDir, Leaves(v))
  }

  lemma {:induction false} BlobsForAppend(fs: Fs, blobsDir: Path, ss: seq<string>, tt: seq<string>)
    ensures BlobsFor(fs, blobsDir, ss + tt) == BlobsFor(fs, blobsDir, ss) + BlobsFor(fs, blobsDir, tt)
    decreases |tt|
  {
    if tt == [] {
      assert ss + tt == ss;
    } else {
      var front := tt[..|tt| - 1];
      assert (ss + tt)[..|ss + tt| - 1] == ss + front;
      assert (ss + tt)[|ss + tt| - 1] == tt[|tt| - 1];
      BlobsForAppend(fs, blobsDir, ss, front);
    }
  }

  /** The string `s` makes `collect_digests` push `p`. */
  predicate Collects(fs: Fs, blobsDir: Path, s: string, p: Path) {
    IsDigest(s) && BlobPath(blobsDir, s) == p && Exists(fs, p)
  }

  /**
   * A path is collected exactly when some string of the list is a digest
   * whose blob is that path and exists.
   */
  lemma {:induction false} BlobsForMembership(fs: Fs, blobsDir: Path, ss: seq<string>, p: Path)
    ensures p in BlobsFor(fs, blobsDir, ss) <==> exists k :: 0 <= k < |ss| && Collects(fs, blobsDir, ss[k], p)
  {
    if ss != [] {
      var front := ss[..|ss| - 1];
      var s := ss[|ss| - 1];
      BlobsForMembership(fs, blobsDir, front, p);
      CollectsStep(fs, blobsDir, ss, front, p);
      var tail := if Collects(fs, blobsDir, s, BlobPath(blobsDir, s)) then [BlobPath(blobsDir, s)] else [];
      assert BlobsFor(fs, blobsDir, ss) == BlobsFor(fs, blobsDir, front) + tail;
      assert p in tail <==> Collects(fs, blobsDir, s, p);
    }
  }

  /** Some string of a non-empty list collects `p` iff one of its front does or its last one does. */
  lemma CollectsStep(fs: Fs, blobsDir: Path, ss: seq<string>, front: seq<string>, p: Path)
    requires ss != [] && front == ss[..|ss| - 1]
    ensures (exists k :: 0 <= k < |ss| && Collects(fs, blobsDir, ss[k], p)) <==>
      (exists k :: 0 <= k < |front| && Collects(fs, blobsDir, front[k], p))
      || Collects(fs, blobsDir, ss[|ss| - 1], p)
  {
    AnyStep(ss, front, s => Collects(fs, blobsDir, s, p));
  }

  /** Some string of a non-empty list passes `f` iff one of its front does or its last one does. */
  lemma AnyStep(ss: seq<string>, front: seq<string>, f: string -> bool)
    requires ss != [] && front == ss[..|ss| - 1]
    ensures (exists k :: 0 <= k < |ss| && f(ss[k])) <==>
      (exists k :: 0 <= k < |front| && f(front[k])) || f(ss[|ss| - 1])
  {
    var last := |ss| - 1;
    if exists k :: 0 <= k < |ss| && f(ss[k]) {
      var k :| 0 <= k < |ss| && f(ss[k]);
      if k < last {
        assert front[k] == ss[k];
      }
    }
    if exists k :: 0 <= k < |front| && f(front[k]) {
      var k :| 0 <= k < |front| && f(front[k]);
      assert ss[k] == front[k];
    }
  }

  /** Every collected blob exists, and its file name has no ':' left in it. */
  lemma {:induction false} BlobsForExist(fs: Fs, blobsDir: Path, ss: seq<string>)
    ensures forall p :: p in BlobsFor(fs, blobsDir, ss) ==> Exists(fs, p)
  {
    forall p | p in BlobsFor(fs, blobsDir, ss) ensures Exists(fs, p) {
      BlobsForMembership(fs, blobsDir, ss, p);
    }
  }

  /** The blob name of a digest keeps its length and has no ':' at all. */
  lemma BlobNameHasNoColon(digest: string)
    ensures var n := Text.ReplaceChar(digest, ':', '-'); |n| == |digest| && ':' !in n
    ensures IsDigest(digest) ==> Text.StartsWith(Text.ReplaceChar(digest, ':', '-'), "sha256-")
  {
    var n := Text.ReplaceChar(digest, ':', '-');
    if IsDigest(digest) {
      assert n[..7] == "sha256-";
    }
  }

  /** A string leaf contributes its own blob, if it is a digest whose blob exists. */
  lemma DigestsOfString(fs: Fs, blobsDir: Path, s: string)
    ensures Digests(fs, blobsDir, JString(s))
      == if Collects(fs, blobsDir, s, BlobPath(blobsDir, s)) then [BlobPath(blobsDir, s)] else []
  {
    assert Leaves(JString(s)) == [s];
    assert [s][..0] == [];
    assert BlobsFor(fs, blobsDir, []) == [];
    assert BlobsFor(fs, blobsDir, [s]) == BlobsFor(fs, blobsDir, []) + (if Collects(fs, blobsDir, s, BlobPath(blobsDir, s)) then [BlobPath(blobsDir, s)] else []);
  }

  /** One more array element adds the digests of that element. */
  lemma ItemsStep(fs: Fs, blobsDir: Path, items: seq<Json>, i: nat)
    requires i < |items|
    ensures BlobsFor(fs, blobsDir, LeavesOfItems(items[..i + 1]))
      == BlobsFor(fs, blobsDir, LeavesOfItems(items[..i])) + Digests(fs, blobsDir, items[i])
  {
    assert items[..i + 1][..i] == items[..i];
    BlobsForAppend(fs, blobsDir, LeavesOfItems(items[..i]), Leaves(items[i]));
  }

  /** One more object member adds the digests of its value. */
  lemma MembersStep(fs: Fs, blobsDir: Path, members: seq<(string, Json)>, i: nat)
    requires i < |members|
    ensures BlobsFor(fs, blobsDir, LeavesOfMembers(members[..i + 1]))
      == BlobsFor(fs, blobsDir, LeavesOfMembers(members[..i])) + Digests(fs, blobsDir, members[i].1)
  {
    assert members[..i + 1][..i] == members[..i];
    BlobsForAppend(fs, blobsDir, LeavesOfMembers(members[..i]), Leaves(members[i].1));
  }

  /**
   * `collect_digests`: walks `v` depth first and appends to `out` the blob
   * path of every "sha256:" string whose blob exists; nothing already in
   * `out` is changed.
   */
  method CollectDigests(fs: Fs, blobsDir: Path, v: Json, out: seq<Path>) returns (out': seq<Path>)
    ensures out' == out + Digests(fs, blobsDir, v)
    decreases v, 1
  {
    match v {
      case JString(s) =>
        out' := out;
        if IsDigest(s) {
          var p := BlobPath(blobsDir, s);
          if Exists(fs, p) {
            out' := out' + [p];
          }
        }
        DigestsOfString(fs, blobsDir, s);
      case JArray(items) =>
        out' := CollectItems(fs, blobsDir, items, out);
      case JObject(members) =>
        out' := CollectMembers(fs, blobsDir, members, out);
      case JOther =>
        out' := out;
        assert Digests(fs, blobsDir, v) == [];
    }
  }

  /** Appending is associative. */
  lemma AppendAssoc<T>(a: seq<T>, b: seq<T>, c: seq<T>)
    ensures a + b + c == a + (b + c)
  {
  }

  /** A whole-length prefix is the sequence itself. */
  lemma WholePrefix<T>(xs: seq<T>)
    ensures xs[..|xs|] == xs
  {
  }

  /** The loop `for e in arr { collect_digests(e, out) }`. */
  method CollectItems(fs: Fs, blobsDir: Path, items: seq<Json>, out: seq<Path>) returns (out': seq<Path>)
    ensures out' == out + BlobsFor(fs, blobsDir, LeavesOfItems(items))
    decreases items, 0
  {
    out' := out;
    var i := 0;
    while i < |items|
      invariant 0 <= i <= |items|
      invariant out' == out + BlobsFor(fs, blobsDir, LeavesOfItems(items[..i]))
    {
      ItemsStep(fs, blobsDir, items, i);
      AppendAssoc(out, BlobsFor(fs, blobsDir, LeavesOfItems(items[..i])), Digests(fs, blobsDir, items[i]));
      out' := CollectDigests(fs, blobsDir, items[i], out');
      i := i + 1;
    }
    WholePrefix(items);
  }

  /** The loop `for (_k, val) in map.iter() { collect_digests(val, out) }`. */
  method CollectMembers(fs: Fs, blobsDir: Path, members: seq<(string, Json)>, out: seq<Path>) returns (out': seq<Path>)
    ensures out' == out + BlobsFor(fs, blobsDir, LeavesOfMembers(members))
    decreases members, 0
  {
    out' := out;
    var i := 0;
    while i < |members|
      invariant 0 <= i <= |members|
      invariant out' == out + BlobsFor(fs, blobsDir, LeavesOfMembers(members[..i]))
    {
      var value := members[i].1;
      assert value < members[i];
      MembersStep(fs, blobsDir, members, i);
      AppendAssoc(out, BlobsFor(fs, blobsDir, LeavesOfMembers(members[..i])), Digests(fs, blobsDir, value));
      out' := CollectDigests(fs, blobsDir, value, out');
      i := i + 1;
    }
    WholePrefix(members);
  }

  /** The (size, path) pairs the resolver's loop keeps: the blobs that pass the sniff. */
  function GgufSized(fs: Fs, blobs: seq<Path>): (r: seq<(nat, Path)>)
    ensures forall k :: 0 <= k < |r| ==>
      r[k].1 in blobs && IsGguf(fs, r[k].1) && Exists(fs, r[k].1) && r[k].0 == Size(fs, r[k].1)
  {
    if blobs == [] then []
    else
      var b := blobs[|blobs| - 1];
      GgufSized(fs, blobs[..|blobs| - 1]) + (if IsGguf(fs, b) then [(Size(fs, b), b)] else [])
  }

  /** Every sniffed blob of the list is kept. */
  lemma {:induction false} GgufSizedComplete(fs: Fs, blobs: seq<Path>, p: Path) returns (k: nat)
    requires p in blobs && IsGguf(fs, p)
    ensures k < |GgufSized(fs, blobs)| && GgufSized(fs, blobs)[k].1 == p
  {
    var front := blobs[..|blobs| - 1];
    var b := blobs[|blobs| - 1];
    assert blobs == front + [b];
    var gf := GgufSized(fs, front);
    var tail := if IsGguf(fs, b) then [(Size(fs, b), b)] else [];
    assert GgufSized(fs, blobs) == gf + tail;
    if p in front {
      k := GgufSizedComplete(fs, front, p);
      assert (gf + tail)[k] == gf[k];
    } else {
      assert p == b;
      k := |gf|;
      assert (gf + tail)[k] == tail[0];
    }
  }

  /**
   * The position of the largest size, the last one among equal sizes: the
   * element that a stable sort by size puts at the end.
   */
  function LastMaxIndex(xs: seq<(nat, Path)>): (k: nat)
    requires |xs| > 0
    ensures k < |xs|
    ensures forall j :: 0 <= j < |xs| ==> xs[j].0 <= xs[k].0
    ensures forall j :: k < j < |xs| ==> xs[j].0 < xs[k].0
  {
    if |xs| == 1 then 0
    else
      var k := LastMaxIndex(xs[..|xs| - 1]);
      if xs[k].0 <= xs[|xs| - 1].0 then |xs| - 1 else k
  }

  /** Inserts `x` after every element whose size is at most its own, the step of a stable insertion sort. */
  function InsertBySize(sorted: seq<(nat, Path)>, x: (nat, Path)): (r: seq<(nat, Path)>)
    ensures |r| == |sorted| + 1
    ensures multiset(r) == multiset(sorted) + multiset{x}
  {
    if sorted == [] then [x]
    else
      var last := sorted[|sorted| - 1];
      if last.0 <= x.0 then sorted + [x]
      else
        var front := sorted[..|sorted| - 1];
        assert sorted == front + [last];
        InsertBySize(front, x) + [last]
  }

  /** `sort_by_key(|(len, _)| *len)`: Rust's sort is stable, so equal sizes keep their order. */
  function SortBySize(xs: seq<(nat, Path)>): (r: seq<(nat, Path)>)
    ensures |r| == |xs|
    ensures multiset(r) == multiset(xs)
  {
    if xs == [] then []
    else
      assert xs == xs[..|xs| - 1] + [xs[|xs| - 1]];
      InsertBySize(SortBySize(xs[..|xs| - 1]), xs[|xs| - 1])
  }

  predicate SortedBySize(xs: seq<(nat, Path)>) {
    forall i, j :: 0 <= i < j < |xs| ==> xs[i].0 <= xs[j].0
  }

  /** Every element of a sorted list is at most as large as its last one. */
  lemma SortedBelowLast(sorted: seq<(nat, Path)>, y: (nat, Path))
    requires SortedBySize(sorted) && |sorted| > 0 && y in multiset(sorted)
    ensures y.0 <= sorted[|sorted| - 1].0
  {
    var j :| 0 <= j < |sorted| && sorted[j] == y;
  }

  lemma {:induction false} InsertBySizeSorted(sorted: seq<(nat, Path)>, x: (nat, Path))
    requires SortedBySize(sorted)
    ensures SortedBySize(InsertBySize(sorted, x))
    decreases |sorted|
  {
    if sorted != [] {
      var last := sorted[|sorted| - 1];
      var front := sorted[..|sorted| - 1];
      if last.0 > x.0 {
        assert SortedBySize(front);
        InsertBySizeSorted(front, x);
        InsertBeforeLast(sorted, x);
      } else {
        AppendAfterLast(sorted, x);
      }
    }
  }

  /** A pair no smaller than the last keeps a sorted list sorted when appended. */
  lemma AppendAfterLast(sorted: seq<(nat, Path)>, x: (nat, Path))
    requires SortedBySize(sorted) && sorted != [] && sorted[|sorted| - 1].0 <= x.0
    ensures SortedBySize(sorted + [x])
  {
    var r := sorted + [x];
    forall i, j | 0 <= i < j < |r| ensures r[i].0 <= r[j].0 {
      if j == |sorted| {
        SortedBelowLast(sorted, sorted[i]);
      }
    }
  }

  /** The step where `x` goes before the last element, given the recursive call's result is sorted. */
  lemma InsertBeforeLast(sorted: seq<(nat, Path)>, x: (nat, Path))
    requires SortedBySize(sorted) && sorted != [] && sorted[|sorted| - 1].0 > x.0
    requires SortedBySize(InsertBySize(sorted[..|sorted| - 1], x))
    ensures SortedBySize(InsertBySize(sorted, x))
  {
    var last := sorted[|sorted| - 1];
    var front := sorted[..|sorted| - 1];
    assert sorted == front + [last];
    forall k | 0 <= k < |front| ensures front[k].0 <= last.0 {
      assert front[k] == sorted[k];
    }
    InsertedBounded(front, x, last.0);
    AppendBounding(InsertBySize(front, x), last);
  }

  /** Inserting into a list bounded by `bound` an element within it keeps the list bounded. */
  lemma InsertedBounded(front: seq<(nat, Path)>, x: (nat, Path), bound: nat)
    requires forall k :: 0 <= k < |front| ==> front[k].0 <= bound
    requires x.0 <= bound
    ensures forall k :: 0 <= k < |InsertBySize(front, x)| ==> InsertBySize(front, x)[k].0 <= bound
  {
    var ins := InsertBySize(front, x);
    forall k | 0 <= k < |ins| ensures ins[k].0 <= bound {
      assert ins[k] in multiset(ins);
      if ins[k] != x {
        assert ins[k] in multiset(front);
        var j :| 0 <= j < |front| && front[j] == ins[k];
      }
    }
  }

  /** Appending an element no smaller than every element keeps a sorted list sorted. */
  lemma AppendBounding(ins: seq<(nat, Path)>, last: (nat, Path))
    requires SortedBySize(ins)
    requires forall k :: 0 <= k < |ins| ==> ins[k].0 <= last.0
    ensures SortedBySize(ins + [last])
  {
    var r := ins + [last];
    forall i, j | 0 <= i < j < |r| ensures r[i].0 <= r[j].0 {
      if j < |ins| {
        assert r[i] == ins[i] && r[j] == ins[j];
      } else {
        assert r[i] == ins[i];
      }
    }
  }

  /** The stable sort orders the pairs by size. */
  lemma {:induction false} SortBySizeSorted(xs: seq<(nat, Path)>)
    ensures SortedBySize(SortBySize(xs))
  {
    if xs != [] {
      SortBySizeSorted(xs[..|xs| - 1]);
      InsertBySizeSorted(SortBySize(xs[..|xs| - 1]), xs[|xs| - 1]);
    }
  }

  /**
   * Sorting by size and popping the last element yields the last element of
   * the largest size: on a tie the blob collected later wins.
   */
  lemma {:induction false} SortThenPopIsLastMax(xs: seq<(nat, Path)>)
    requires |xs| > 0
    ensures SortBySize(xs)[|xs| - 1] == xs[LastMaxIndex(xs)]
  {
    if |xs| > 1 {
      var front := xs[..|xs| - 1];
      SortThenPopIsLastMax(front);
      SortStep(xs);
      LastMaxStep(xs);
      InsertLast(SortBySize(front), xs[|xs| - 1]);
    }
  }

  /** One step of the insertion sort: the last element goes into the sorted front. */
  lemma SortStep(xs: seq<(nat, Path)>)
    requires |xs| > 1
    ensures SortBySize(xs) == InsertBySize(SortBySize(xs[..|xs| - 1]), xs[|xs| - 1])
  {
  }

  /** One step of `LastMaxIndex`: the last element wins unless the front's maximum is larger. */
  lemma LastMaxStep(xs: seq<(nat, Path)>)
    requires |xs| > 1
    ensures var k := LastMaxIndex(xs[..|xs| - 1]);
      k < |xs| - 1 && xs[k] == xs[..|xs| - 1][k]
      && LastMaxIndex(xs) == if xs[k].0 <= xs[|xs| - 1].0 then |xs| - 1 else k
  {
  }

  /** After inserting `x`, the last element is `x` unless the old last element is larger. */
  lemma InsertLast(sorted: seq<(nat, Path)>, x: (nat, Path))
    requires sorted != []
    ensures var last := sorted[|sorted| - 1];
      InsertBySize(sorted, x)[|sorted|] == if last.0 <= x.0 then x else last
  {
  }

  /** Popping the sorted list yields `LargestBlob` of the unsorted one. */
  lemma PopAfterSort(ggufs: seq<(nat, Path)>)
    ensures SortBySize(ggufs) == [] <==> ggufs == []
    ensures ggufs != [] ==> LargestBlob(ggufs) == Some(SortBySize(ggufs)[|ggufs| - 1].1)
  {
    if ggufs != [] {
      SortThenPopIsLastMax(ggufs);
    }
  }

  /** The result of `ggufs.pop()` after the stable sort, stated on the unsorted list. */
  function LargestBlob(ggufs: seq<(nat, Path)>): Option<Path> {
    if ggufs == [] then None else Some(ggufs[LastMaxIndex(ggufs)].1)
  }

  /** The manifest file of `model:tag` in the library tree. */
  function ManifestPath(home: Path, model: string, tag: string): Path {
    Push(Push(Layout.ManifestDir(home), model), tag)
  }

  /**
   * `resolve_ollama_library_gguf` as a function of the filesystem: no
   * manifest, an unreadable or unparseable one, or no existing digest give
   * None; otherwise the largest sniffed GGUF blob, if any.
   */
  function LibraryGguf(fs: Fs, home: Path, parse: seq<byte> -> Option<Json>, model: string, tag: string): Option<Path> {
    var mp := ManifestPath(home, model, tag);
    if !Exists(fs, mp) then None
    else match parse(Contents(fs, mp).value)
      case None => None
      case Some(json) =>
        var blobs := Digests(fs, Layout.BlobsDir(home), json);
        if blobs == [] then None else LargestBlob(GgufSized(fs, blobs))
  }

  /** One more blob of the loop adds its pair exactly when it passes the sniff. */
  lemma GgufSizedStep(fs: Fs, blobs: seq<Path>, i: nat)
    requires i < |blobs|
    ensures GgufSized(fs, blobs[..i + 1])
      == GgufSized(fs, blobs[..i]) + if IsGguf(fs, blobs[i]) then [(Size(fs, blobs[i]), blobs[i])] else []
  {
    assert blobs[..i + 1][..i] == blobs[..i];
  }

  /** The resolver's loop: each blob that passes the sniff is kept with its size, in order. */
  method KeepGguf(fs: Fs, blobs: seq<Path>) returns (ggufs: seq<(nat, Path)>)
    ensures ggufs == GgufSized(fs, blobs)
  {
    ggufs := [];
    var i := 0;
    while i < |blobs|
      invariant 0 <= i <= |blobs|
      invariant ggufs == GgufSized(fs, blobs[..i])
    {
      var b := blobs[i];
      GgufSizedStep(fs, blobs, i);
      if IsGgufFile(fs, b).GetOr(false) {
        // `fs::metadata` cannot fail for a file the sniff has just read.
        ggufs := ggufs + [(Size(fs, b), b)];
      }
      i := i + 1;
    }
    WholePrefix(blobs);
  }

  /**
   * `resolve_ollama_library_gguf`: reads and parses the manifest, collects
   * the existing digests, keeps the sniffed blobs with their sizes, sorts
   * them by size and pops the last one.
   */
  method ResolveOllamaLibraryGguf(fs: Fs, home: Path, parse: seq<byte> -> Option<Json>, model: string, tag: string)
    returns (r: Option<Path>)
    ensures r == LibraryGguf(fs, home, parse, model, tag)
  {
    var manifestPath := Push(Layout.ManifestDir(home), model);
    manifestPath := Push(manifestPath, tag);
    if !Exists(fs, manifestPath) {
      return None;
    }
    var json := parse(Contents(fs, manifestPath).value);
    if json.None? {
      return None;
    }
    var blobs := CollectDigests(fs, Layout.BlobsDir(home), json.value, []);
    assert blobs == Digests(fs, Layout.BlobsDir(home), json.value) by {
      assert [] + Digests(fs, Layout.BlobsDir(home), json.value) == Digests(fs, Layout.BlobsDir(home), json.value);
    }
    assert LibraryGguf(fs, home, parse, model, tag) == if blobs == [] then None else LargestBlob(GgufSized(fs, blobs));
    if blobs == [] {
      return None;
    }
    var ggufs := KeepGguf(fs, blobs);
    var sorted := SortBySize(ggufs);
    PopAfterSort(ggufs);
    if sorted == [] {
      return None;
    }
    r := Some(sorted[|sorted| - 1].1);
  }

  /** When the resolver finds nothing: no manifest, no parse, or no referenced blob that passes the sniff. */
  lemma LibraryGgufNone(fs: Fs, home: Path, parse: seq<byte> -> Option<Json>, model: string, tag: string)
    ensures var mp := ManifestPath(home, model, tag);
      LibraryGguf(fs, home, parse, model, tag).None? <==>
        || !Exists(fs, mp)
        || parse(Contents(fs, mp).value).None?
        || forall p :: p in Digests(fs, Layout.BlobsDir(home), parse(Contents(fs, mp).value).value) ==> !IsGguf(fs, p)
  {
    var mp := ManifestPath(home, model, tag);
    if Exists(fs, mp) && parse(Contents(fs, mp).value).Some? {
      var blobs := Digests(fs, Layout.BlobsDir(home), parse(Contents(fs, mp).value).value);
      var g := GgufSized(fs, blobs);
      forall p | p in blobs && IsGguf(fs, p) ensures g != [] {
        var k := GgufSizedComplete(fs, blobs, p);
      }
      assert LibraryGguf(fs, home, parse, model, tag) == if blobs == [] then None else LargestBlob(g);
    }
  }

  /**
   * What the resolver picks: a blob the manifest references, that exists,
   * passes the sniff, and is at least as large as every other such blob;
   * among the ones of that size it is the last kept in collection order.
   */
  lemma LibraryGgufPicksLargest(fs: Fs, home: Path, parse: seq<byte> -> Option<Json>, model: string, tag: string, p: Path)
    requires LibraryGguf(fs, home, parse, model, tag) == Some(p)
    ensures var mp := ManifestPath(home, model, tag);
      && Exists(fs, mp) && parse(Contents(fs, mp).value).Some?
      && var blobs := Digests(fs, Layout.BlobsDir(home), parse(Contents(fs, mp).value).value);
      && p in blobs && Exists(fs, p) && IsGguf(fs, p)
      && (forall q :: q in blobs && IsGguf(fs, q) ==> Exists(fs, q) && Size(fs, q) <= Size(fs, p))
      && var g := GgufSized(fs, blobs);
      && exists k :: 0 <= k < |g| && g[k].1 == p && forall j :: k < j < |g| ==> g[j].0 < g[k].0
  {
    var mp := ManifestPath(home, model, tag);
    assert Exists(fs, mp) && parse(Contents(fs, mp).value).Some?;
    var blobs := Digests(fs, Layout.BlobsDir(home), parse(Contents(fs, mp).value).value);
    assert blobs != [] && LargestBlob(GgufSized(fs, blobs)) == Some(p);
    LargestSized(fs, blobs, p);
  }

  /** The blob `pop` leaves: kept, and at least as large as every blob that passes the sniff, and the last of its size. */
  lemma LargestSized(fs: Fs, blobs: seq<Path>, p: Path)
    requires LargestBlob(GgufSized(fs, blobs)) == Some(p)
    ensures p in blobs && Exists(fs, p) && IsGguf(fs, p)
    ensures forall q :: q in blobs && IsGguf(fs, q) ==> Exists(fs, q) && Size(fs, q) <= Size(fs, p)
    ensures var g := GgufSized(fs, blobs);
      exists k :: 0 <= k < |g| && g[k].1 == p && forall j :: k < j < |g| ==> g[j].0 < g[k].0
  {
    var g := GgufSized(fs, blobs);
    var k := LastMaxIndex(g);
    assert g[k].1 == p;
    forall q | q in blobs && IsGguf(fs, q) ensures Exists(fs, q) && Size(fs, q) <= Size(fs, p) {
      var j := GgufSizedComplete(fs, blobs, q);
      assert g[j].0 <= g[k].0;
    }
  }
}
