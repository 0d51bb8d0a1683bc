/**
 * Model tokens `name` or `name:tag`, as both command surfaces read them.
 */
module ModelTag {
  import opened Wrappers
  import opened Paths
  import Text

  const DefaultTag: string := "latest"
  const CloudTag: string := "cloud"

  /**
   * `split_model_tag`: the first two pieces of `s.split(':')`, the second
   * defaulting to "latest" when there is no ':' at all. Anything after a
   * second ':' is dropped.
   */
  function SplitModelTag(s: string): (string, string) {
    var name := Text.FirstPiece(s, ':');
    var tag := if ':' in s then Text.FirstPiece(s[Text.IndexOf(s, ':') + 1..], ':') else DefaultTag;
    (name, tag)
  }

  /** The name and tag are the first and second pieces of the split, "latest" standing in for a missing second piece. */
  lemma SplitModelTagIsSplit(s: string)
    ensures var parts := Text.Split(s, ':');
      SplitModelTag(s) == (parts[0], if |parts| > 1 then parts[1] else DefaultTag)
  {
    Text.SplitFirstTwo(s, ':');
  }

  /** A token without ':' is all name, with the tag "latest". */
  lemma NoColonIsName(s: string)
    requires ':' !in s
    ensures SplitModelTag(s) == (s, DefaultTag)
  {
    assert s[..|s|] == s;
  }

  /**
   * What `split_model_tag` returns for a token with a ':': the name is the
   * text before the first ':', the tag is the text after it up to the next
   * ':' or the end, and neither contains a ':'.
   */
  lemma SplitModelTagParts(s: string)
    requires ':' in s
    ensures var r := SplitModelTag(s);
      && |r.0| + 1 + |r.1| <= |s|
      && s[..|r.0|] == r.0 && s[|r.0|] == ':' && ':' !in r.0
      && s[|r.0| + 1..|r.0| + 1 + |r.1|] == r.1 && ':' !in r.1
      && (|r.0| + 1 + |r.1| == |s| || s[|r.0| + 1 + |r.1|] == ':')
  {
    NamePart(s);
    TagPart(s);
  }

  /** The name is the text before the first ':'. */
  lemma NamePart(s: string)
    requires ':' in s
    ensures var n := SplitModelTag(s).0;
      |n| == Text.IndexOf(s, ':') && s[..|n|] == n && ':' !in n
  {
  }

  /** The tag runs from just after the first ':' to the next ':' or the end. */
  lemma TagPart(s: string)
    requires ':' in s
    ensures PieceAt(s, Text.IndexOf(s, ':') + 1, SplitModelTag(s).1)
  {
    var i := Text.IndexOf(s, ':');
    var t := SplitModelTag(s).1;
    assert t == Text.FirstPiece(s[i + 1..], ':');
    FirstPieceAt(s, i + 1, t);
  }

  /** `t` occurs in `s` at `from`, holds no ':', and is followed by a ':' or the end of `s`. */
  predicate PieceAt(s: string, from: nat, t: string) {
    && from + |t| <= |s| && s[from..from + |t|] == t && ':' !in t
    && (from + |t| == |s| || s[from + |t|] == ':')
  }

  /** The first ':'-separated piece `t` of `s[from..]` sits at `from` and runs to the next ':' or the end. */
  lemma FirstPieceAt(s: string, from: nat, t: string)
    requires from <= |s| && t == Text.FirstPiece(s[from..], ':')
    ensures PieceAt(s, from, t)
  {
    var rest := s[from..];
    assert s[from..from + |t|] == rest[..|t|];
    if from + |t| < |s| {
      assert s[from + |t|] == rest[|t|];
    }
  }

  /**
   * `normalize_model_tag`: a target containing ':' is split and the separate
   * tag argument is ignored; otherwise the target is the name and the tag
   * argument, or "latest", is the tag.
   */
  function NormalizeModelTag(target: string, tag: Option<string>): (r: (string, string))
    ensures ':' in target ==> r == SplitModelTag(target)
    ensures ':' !in target ==> r.0 == target
    ensures ':' !in target && tag.Some? ==> r.1 == tag.value
    ensures ':' !in target && tag.None? ==> r.1 == DefaultTag
  {
    if ':' in target then SplitModelTag(target)
    else (target, tag.GetOr(DefaultTag))
  }

  /** The tag `cloud`, in any ASCII case, selects the remote backend. */
  predicate IsCloudTag(tag: string) {
    Text.EqIgnoreAsciiCase(tag, CloudTag)
  }

  /** The stable link name `format!("{}-{}.gguf", name, tag)`. */
  function LinkName(name: string, tag: string): string {
    name + "-" + tag + ".gguf"
  }

  /** The ollama argument `format!("{}:{}", name, tag)`. */
  function Qualified(name: string, tag: string): string {
    name + ":" + tag
  }

  /** "a:" gives the empty tag, not the default. */
  lemma TrailingColonGivesEmptyTag(name: string)
    requires ':' !in name
    ensures SplitModelTag(name + ":") == (name, "")
  {
    var s := name + ":";
    assert s[|name|] == ':';
    var r := SplitModelTag(s);
    assert |r.0| == |name| by {
      assert s[..|name|] == name;
      assert forall j :: 0 <= j < |r.0| ==> s[j] != ':' by {
        forall j | 0 <= j < |r.0| ensures s[j] != ':' {
          assert s[j] == r.0[j];
        }
      }
      assert forall j :: 0 <= j < |name| ==> s[j] != ':' by {
        forall j | 0 <= j < |name| ensures s[j] != ':' {
          assert s[j] == name[j];
        }
      }
    }
  }

  /** Re-splitting a qualified `name:tag` gives back the pair when neither part has a ':'. */
  lemma {:induction false} QualifiedRoundTrip(name: string, tag: string)
    requires ':' !in name && ':' !in tag
    ensures SplitModelTag(Qualified(name, tag)) == (name, tag)
  {
    var s := Qualified(name, tag);
    assert Text.Join([name, tag], ':') == s;
    Text.SplitJoin([name, tag], ':');
    SplitModelTagIsSplit(s);
    assert s[|name|] == ':';
  }

  /** Only the first two ':'-separated pieces matter: "a:b:c" is ("a", "b"). */
  lemma ThirdPieceIgnored(a: string, b: string, c: string)
    requires ':' !in a && ':' !in b && ':' !in c
    ensures SplitModelTag(a + ":" + b + ":" + c) == (a, b)
  {
    var s := a + ":" + b + ":" + c;
    assert Text.Join([c], ':') == c;
    assert Text.Join([b, c], ':') == b + ":" + c by {
      assert [b, c][1..] == [c];
    }
    assert Text.Join([a, b, c], ':') == s by {
      assert [a, b, c][1..] == [b, c];
    }
    Text.SplitJoin([a, b, c], ':');
    SplitModelTagIsSplit(s);
    assert s[|a|] == ':';
  }

  /** Without a separate tag argument, normalising is splitting. */
  lemma NormalizeWithoutTagIsSplit(target: string)
    ensures NormalizeModelTag(target, None) == SplitModelTag(target)
  {
    if ':' !in target {
      NoColonIsName(target);
    }
  }

  /** The cloud sentinel is recognised in any ASCII case; "clouds" and "latest" are not it. */
  lemma CloudTagCases()
    ensures IsCloudTag("cloud") && IsCloudTag("Cloud") && IsCloudTag("CLOUD")
    ensures !IsCloudTag("clouds") && !IsCloudTag("latest")
  {
    assert Text.Lower("Cloud") == "cloud";
    assert Text.Lower("CLOUD") == "cloud";
    assert Text.Lower("cloud") == "cloud";
    assert |Text.Lower("clouds")| == 6;
    assert |Text.Lower("latest")| == 6;
  }

  /** A name ending in ".gguf" after a non-empty stem has the extension "gguf". */
  lemma GgufNameExtension(stem: string)
    requires stem != ""
    ensures NameExtension(stem + ".gguf") == Some("gguf")
  {
    var n := stem + ".gguf";
    assert n[|stem|] == '.';
    var d := Text.LastIndexOf(n, '.');
    assert forall j :: d < j < |n| ==> n[j] != '.' by {
      forall j | d < j < |n| ensures n[j] != '.' {
        assert n[j] == n[d + 1..][j - d - 1];
      }
    }
    assert forall j :: |stem| < j < |n| ==> n[j] != '.' by {
      forall j | |stem| < j < |n| ensures n[j] != '.' {
        assert n[j] == "gguf"[j - |stem| - 1];
      }
    }
    assert d == |stem|;
    assert n[d + 1..] == "gguf";
  }

  /** A link name always has the extension "gguf", so it is never given a second one. */
  /**
   * A path whose last six characters are a non-separator followed by
   * ".gguf" has the extension "gguf", whatever separators come before.
   */
  lemma GgufEndedPath(p: Path)
    requires |p| >= 6 && p[|p| - 5..] == ".gguf" && p[|p| - 6] != '/'
    ensures Extension(p) == Some("gguf")
  {
    assert p[|p| - 1] == p[|p| - 5..][4];
    assert TrimmedEnd(p) == |p|;
    var s := SegmentStart(p, |p|);
    forall k | |p| - 6 <= k < |p| ensures p[k] != '/' {
      if k > |p| - 6 {
        assert p[k] == p[|p| - 5..][k - (|p| - 5)];
      }
    }
    assert s <= |p| - 6;
    var seg := p[s..|p|];
    assert |seg| >= 6;
    assert FileNameSpan(p) == Some((s, |p|));
    assert FileName(p) == Some(seg);
    assert seg == p[s..|p| - 5] + ".gguf";
    GgufNameExtension(p[s..|p| - 5]);
  }

  /**
   * A link name `name-tag.gguf` keeps its ".gguf" extension under any link
   * directory, whatever separators the name holds.
   */
  lemma LinkNameHasGgufExtension(dir: Path, name: string, tag: string)
    requires '/' !in tag
    ensures Extension(Push(dir, LinkName(name, tag))) == Some("gguf")
  {
    var n := LinkName(name, tag);
    var p := Push(dir, n);
    assert p[|p| - |n|..] == n;
    assert n[|n| - 5..] == ".gguf";
    assert p[|p| - 5..] == n[|n| - 5..];
    if tag == "" {
      assert n[|n| - 6] == '-';
    } else {
      assert n[|n| - 6] == tag[|tag| - 1];
    }
    assert p[|p| - 6] == n[|n| - 6];
    GgufEndedPath(p);
  }
}
