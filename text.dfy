/**
 * The string operations of Rust's `str` that the dispatcher relies on:
 * `split`, `join`, `contains`, `starts_with`, `replace` of one character,
 * ASCII lower-casing and `eq_ignore_ascii_case`.
 */
module Text {

  /** Position of the first `c` in `s`. */
  function IndexOf(s: string, c: char): (i: nat)
    requires c in s
    ensures i < |s| && s[i] == c && c !in s[..i]
  {
    if s[0] == c then 0
    else
      var j := IndexOf(s[1..], c);
      assert s[..1 + j] == [s[0]] + s[1..][..j];
      1 + j
  }

  /** Position of the last `c` in `s`. */
  function LastIndexOf(s: string, c: char): (i: nat)
    requires c in s
    ensures i < |s| && s[i] == c && c !in s[i + 1..]
  {
    if s[|s| - 1] == c then |s| - 1
    else
      var front := s[..|s| - 1];
      assert c in front by {
        var k :| 0 <= k < |s| && s[k] == c;
        assert front[k] == c;
      }
      var j := LastIndexOf(front, c);
      assert s[j + 1..] == front[j + 1..] + [s[|s| - 1]];
      j
  }

  /**
   * Rust's `s.split(sep)`: the pieces between separators, in order. There is
   * always at least one piece; a separator at either end gives an empty piece.
   */
  function Split(s: string, sep: char): (parts: seq<string>)
    ensures |parts| >= 1
    ensures forall k :: 0 <= k < |parts| ==> sep !in parts[k]
    ensures sep !in s ==> parts == [s]
    decreases |s|
  {
    if sep !in s then [s]
    else
      var i := IndexOf(s, sep);
      [s[..i]] + Split(s[i + 1..], sep)
  }

  /** The first piece of `s.split(sep)`: the text before the first separator, or all of `s` when there is none. */
  function FirstPiece(s: string, sep: char): (r: string)
    ensures |r| <= |s| && s[..|r|] == r && sep !in r
    ensures |r| == |s| || s[|r|] == sep
    ensures sep in s <==> |r| < |s|
  {
    if sep in s then s[..IndexOf(s, sep)] else s
  }

  /**
   * The first two pieces of a split: the first is the text up to the first
   * separator; there is a second exactly when there is a separator, and it
   * is the first piece of what follows that separator.
   */
  lemma SplitFirstTwo(s: string, sep: char)
    ensures Split(s, sep)[0] == FirstPiece(s, sep)
    ensures |Split(s, sep)| >= 2 <==> sep in s
    ensures sep in s ==> Split(s, sep)[1] == FirstPiece(s[IndexOf(s, sep) + 1..], sep)
  {
    SplitHead(s, sep);
    if sep in s {
      SplitSecond(s, sep);
    }
  }

  /** With a separator there is a second piece: the first piece of what follows the first separator. */
  lemma SplitSecond(s: string, sep: char)
    requires sep in s
    ensures |Split(s, sep)| >= 2
    ensures Split(s, sep)[1] == FirstPiece(s[IndexOf(s, sep) + 1..], sep)
  {
    var rest := s[IndexOf(s, sep) + 1..];
    SplitStep(s, sep);
    SplitHead(rest, sep);
    assert Split(s, sep)[1] == Split(rest, sep)[0];
  }

  /** With a separator, the split is the text before it followed by the split of the text after it. */
  lemma SplitStep(s: string, sep: char)
    requires sep in s
    ensures Split(s, sep) == [s[..IndexOf(s, sep)]] + Split(s[IndexOf(s, sep) + 1..], sep)
  {
  }

  /** The first piece of a split is the first piece. */
  lemma SplitHead(s: string, sep: char)
    ensures Split(s, sep)[0] == FirstPiece(s, sep)
  {
    if sep in s {
      assert Split(s, sep) == [s[..IndexOf(s, sep)]] + Split(s[IndexOf(s, sep) + 1..], sep);
    }
  }

  /** Rust's `parts.join(sep)` for a one-character separator. */
  function Join(parts: seq<string>, sep: char): (s: string)
    ensures parts == [] ==> s == ""
    ensures |parts| >= 1 ==> |parts[0]| <= |s| && s[..|parts[0]|] == parts[0]
  {
    if |parts| == 0 then ""
    else if |parts| == 1 then parts[0]
    else parts[0] + [sep] + Join(parts[1..], sep)
  }

  /** Joining the pieces of a split restores the string. */
  lemma {:induction false} JoinSplit(s: string, sep: char)
    ensures Join(Split(s, sep), sep) == s
    decreases |s|
  {
    if sep in s {
      var i := IndexOf(s, sep);
      var rest := s[i + 1..];
      var tail := Split(rest, sep);
      JoinSplit(rest, sep);
      assert Split(s, sep) == [s[..i]] + tail;
      JoinCons(s[..i], tail, sep);
      AroundIndex(s, i);
    }
  }

  /** A string is the text before position `i`, the character there, and the text after it. */
  lemma AroundIndex(s: string, i: nat)
    requires i < |s|
    ensures s[..i] + [s[i]] + s[i + 1..] == s
  {
    var t := s[..i] + [s[i]] + s[i + 1..];
    forall k | 0 <= k < |s| ensures t[k] == s[k] {
      if k < i {
        assert t[k] == s[..i][k];
      } else if k > i {
        assert t[k] == s[i + 1..][k - i - 1];
      }
    }
  }

  /** Joining a piece in front of a non-empty list puts one separator between them. */
  lemma JoinCons(x: string, rest: seq<string>, sep: char)
    requires rest != []
    ensures Join([x] + rest, sep) == x + [sep] + Join(rest, sep)
  {
    assert ([x] + rest)[1..] == rest;
  }

  /** Splitting a join of separator-free pieces gives the pieces back. */
  lemma {:induction false} SplitJoin(parts: seq<string>, sep: char)
    requires |parts| >= 1
    requires forall k :: 0 <= k < |parts| ==> sep !in parts[k]
    ensures Split(Join(parts, sep), sep) == parts
  {
    if |parts| > 1 {
      var s := Join(parts, sep);
      var rest := Join(parts[1..], sep);
      assert s == parts[0] + [sep] + rest;
      FirstSeparatorAfter(parts[0], rest, sep);
      SplitStep(s, sep);
      SplitJoin(parts[1..], sep);
      assert parts == [parts[0]] + parts[1..];
    }
  }

  /** In `x + [sep] + rest` with no separator in `x`, the first separator is the one right after `x`. */
  lemma FirstSeparatorAfter(x: string, rest: string, sep: char)
    requires sep !in x
    ensures var s := x + [sep] + rest;
      sep in s && IndexOf(s, sep) == |x| && s[..|x|] == x && s[|x| + 1..] == rest
  {
    var s := x + [sep] + rest;
    assert s[|x|] == sep;
    assert s[..|x|] == x;
    assert s[|x| + 1..] == rest;
  }

  /** Rust's `s.starts_with(prefix)`. */
  predicate StartsWith(s: string, prefix: string) {
    |prefix| <= |s| && s[..|prefix|] == prefix
  }

  /** Rust's `s.contains(sub)` for a string pattern. */
  predicate Contains(s: string, sub: string)
    decreases |s|
  {
    StartsWith(s, sub) || (|s| > 0 && Contains(s[1..], sub))
  }

  /** `Contains` holds exactly when `sub` occurs at some position of `s`. */
  lemma {:induction false} ContainsAt(s: string, sub: string, i: nat)
    requires i + |sub| <= |s| && s[i..i + |sub|] == sub
    ensures Contains(s, sub)
    decreases i
  {
    if i > 0 {
      assert s[1..][i - 1..i - 1 + |sub|] == s[i..i + |sub|];
      ContainsAt(s[1..], sub, i - 1);
    }
  }

  lemma {:induction false} ContainsWitness(s: string, sub: string) returns (i: nat)
    requires Contains(s, sub)
    ensures i + |sub| <= |s| && s[i..i + |sub|] == sub
    decreases |s|
  {
    if StartsWith(s, sub) {
      i := 0;
    } else {
      var j := ContainsWitness(s[1..], sub);
      assert s[1..][j..j + |sub|] == s[j + 1..j + 1 + |sub|];
      i := j + 1;
    }
  }

  /** `char::to_ascii_lowercase`. */
  function LowerChar(c: char): (d: char)
    ensures 'A' <= c <= 'Z' ==> 'a' <= d <= 'z' && d as int == c as int + 32
    ensures !('A' <= c <= 'Z') ==> d == c
  {
    if 'A' <= c <= 'Z' then (c as int + 32) as char else c
  }

  /** ASCII lower-casing of every character of `s`. */
  function Lower(s: string): (r: string)
    ensures |r| == |s| && forall k :: 0 <= k < |s| ==> r[k] == LowerChar(s[k])
  {
    seq(|s|, k requires 0 <= k < |s| => LowerChar(s[k]))
  }

  /** `str::eq_ignore_ascii_case`. */
  predicate EqIgnoreAsciiCase(a: string, b: string) {
    Lower(a) == Lower(b)
  }

  /** Two strings are equal ignoring ASCII case iff they have the same length and agree letter by letter after lower-casing. */
  lemma EqIgnoreAsciiCaseCharwise(a: string, b: string)
    ensures EqIgnoreAsciiCase(a, b) <==>
      |a| == |b| && forall k :: 0 <= k < |a| ==> LowerChar(a[k]) == LowerChar(b[k])
  {
    if |a| == |b| && forall k :: 0 <= k < |a| ==> LowerChar(a[k]) == LowerChar(b[k]) {
      assert Lower(a) == Lower(b);
    }
  }

  /** `s.replace(from, to)` for one-character patterns: every `from` becomes `to`. */
  function ReplaceChar(s: string, from: char, to: char): (r: string)
    ensures |r| == |s|
    ensures from != to ==> from !in r
    ensures forall k :: 0 <= k < |s| && s[k] == from ==> r[k] == to
    ensures forall k :: 0 <= k < |s| && s[k] != from ==> r[k] == s[k]
  {
    seq(|s|, k requires 0 <= k < |s| => if s[k] == from then to else s[k])
  }
}
