/**
 * Python's `os.path` functions the model uses, for a given separator:
 * `join`, `basename`, `dirname` and `splitext`.
 */
module Paths {
  import opened Text

  /** `os.path.join` of components none of which starts with the separator. */
  function PathJoin(parts: seq<string>, sep: char): string
    decreases |parts|
  {
    if |parts| == 0 then ""
    else
      var p := PathJoin(parts[..|parts| - 1], sep);
      var b := parts[|parts| - 1];
      if p == "" || p[|p| - 1] == sep then p + b else p + [sep] + b
  }

  /** `os.path.join` of a head without a trailing separator and a first component. */
  lemma JoinTwo(head: string, first: string, sep: char)
    requires head != "" && head[|head| - 1] != sep
    ensures PathJoin([head, first], sep) == head + [sep] + first
  {
    assert [head, first][..1] == [head];
    assert [head][..0] == [];
    assert PathJoin([head], sep) == "" + head == head;
  }

  /** Each further component, after one not ending in the separator, comes after one separator. */
  lemma JoinMore(parts: seq<string>, next: string, sep: char)
    requires |parts| >= 1 && PathJoin(parts, sep) != ""
    requires PathJoin(parts, sep)[|PathJoin(parts, sep)| - 1] != sep
    ensures PathJoin(parts + [next], sep) == PathJoin(parts, sep) + [sep] + next
  {
    assert (parts + [next])[..|parts|] == parts;
  }

  /** Python's `os.path.basename`: what follows the last separator. */
  function Basename(p: string, sep: char): (r: string)
    ensures !Contains(r, [sep])
  {
    var i := RFind(p, [sep]) + 1;
    var r := p[i..];
    assert !Contains(r, [sep]) by {
      forall j | 0 <= j <= |r| ensures !OccursAt(r, [sep], j) {
        if j < |r| {
          assert r[j..j + 1] == p[i + j..i + j + 1];
          assert !OccursAt(p, [sep], i + j);
        }
      }
    }
    r
  }

  /** Every character of `s` is `c`. */
  predicate AllOf(s: string, c: char) {
    forall k :: 0 <= k < |s| ==> s[k] == c
  }

  /** Python's `s.rstrip(c)` for one character. */
  function RStripChar(s: string, c: char): (r: string)
    ensures |r| <= |s| && r == s[..|r|]
    ensures r == "" || r[|r| - 1] != c
    ensures AllOf(s[|r|..], c)
  {
    if |s| > 0 && s[|s| - 1] == c then RStripChar(s[..|s| - 1], c) else s
  }

  /**
   * Python's `os.path.dirname`: everything up to the last separator, with
   * trailing separators removed unless there is nothing else.
   */
  function Dirname(p: string, sep: char): string {
    var head := p[..RFind(p, [sep]) + 1];
    if head != "" && !AllOf(head, sep) then RStripChar(head, sep) else head
  }

  /**
   * The root Python's `os.path.splitext` returns: the text before the last
   * dot of the last component, unless that component has only dots before it.
   */
  function Stem(p: string, sep: char): (r: string)
    ensures StartsWith(p, r)
  {
    var sepIndex := RFind(p, [sep]);
    var dotIndex := RFind(p, ".");
    if dotIndex > sepIndex && exists k :: sepIndex + 1 <= k < dotIndex && p[k] != '.' then p[..dotIndex]
    else p
  }

  /** The last separator of `d + [sep] + f`, when `f` has none, is the one added. */
  lemma LastSeparator(d: string, f: string, sep: char)
    requires !Contains(f, [sep])
    ensures RFind(d + [sep] + f, [sep]) == |d|
  {
    var p := d + [sep] + f;
    assert OccursAt(p, [sep], |d|) by { assert p[|d|..|d| + 1] == [sep]; }
    forall j | |d| < j ensures !OccursAt(p, [sep], j) {
      if j + 1 <= |p| {
        assert p[j..j + 1] == f[j - |d| - 1..j - |d|];
        assert !OccursAt(f, [sep], j - |d| - 1);
      }
    }
  }

  /** Joining a directory and a file name, and taking the path apart again, gives both back. */
  lemma JoinApart(d: string, f: string, sep: char)
    requires d != "" && d[|d| - 1] != sep && !Contains(f, [sep])
    ensures Dirname(PathJoin([d, f], sep), sep) == d
    ensures Basename(PathJoin([d, f], sep), sep) == f
  {
    JoinTwo(d, f, sep);
    var p := d + [sep] + f;
    LastSeparator(d, f, sep);
    var head := p[..|d| + 1];
    assert head == d + [sep];
    assert !AllOf(head, sep) by { assert head[|d| - 1] == d[|d| - 1]; }
    assert RStripChar(head, sep) == RStripChar(d, sep) by { assert head[..|head| - 1] == d; }
    assert p[|d| + 1..] == f;
  }

  /** A path whose base name is not empty does not end in a separator. */
  lemma NamedEnds(p: string, sep: char)
    requires Basename(p, sep) != ""
    ensures p != "" && p[|p| - 1] != sep
  {
    var r := Basename(p, sep);
    assert r[|r| - 1] == p[|p| - 1];
    assert r[|r| - 1..] == [r[|r| - 1]];
    assert OccursAt(r, r[|r| - 1..], |r| - 1);
  }
}
