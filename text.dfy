/**
 * Python string operations used by the model, written out on `seq<char>`:
 * `find`/`rfind`, `split`/`join` with a separator, `strip`, `lower`,
 * `replace`, `startswith`, `isnumeric`, `int(...)` and `str(...)` of integers.
 */
module Text {

  /** `sub` occurs in `s` starting at index `i`. */
  predicate OccursAt(s: string, sub: string, i: int) {
    0 <= i && i + |sub| <= |s| && s[i..i + |sub|] == sub
  }

  /** Python's `sub in s`. */
  predicate Contains(s: string, sub: string) {
    exists i :: 0 <= i <= |s| && OccursAt(s, sub, i)
  }

  /** Python's `s.startswith(p)`. */
  predicate StartsWith(s: string, p: string) {
    |p| <= |s| && s[..|p|] == p
  }

  /** First occurrence of `sub` at or after `i`, or -1. */
  function FindFrom(s: string, sub: string, i: nat): (r: int)
    ensures r == -1 || (i <= r && OccursAt(s, sub, r))
    ensures r == -1 ==> forall j :: i <= j ==> !OccursAt(s, sub, j)
    ensures r != -1 ==> forall j :: i <= j < r ==> !OccursAt(s, sub, j)
    decreases |s| - i
  {
    if i + |sub| > |s| then -1
    else if s[i..i + |sub|] == sub then i
    else FindFrom(s, sub, i + 1)
  }

  /** Python's `s.find(sub)`: the first index where `sub` occurs, or -1. */
  function Find(s: string, sub: string): (r: int)
    ensures r == -1 <==> !Contains(s, sub)
    ensures r != -1 ==> OccursAt(s, sub, r) && forall j :: 0 <= j < r ==> !OccursAt(s, sub, j)
  {
    var r := FindFrom(s, sub, 0);
    assert r != -1 ==> OccursAt(s, sub, r);
    r
  }

  /** Last occurrence of `sub` at or before `i`, or -1. */
  function RFindFrom(s: string, sub: string, i: int): (r: int)
    ensures r == -1 || (0 <= r <= i && OccursAt(s, sub, r))
    ensures forall j :: r < j <= i ==> !OccursAt(s, sub, j)
    decreases i + 1
  {
    if i < 0 then -1
    else if OccursAt(s, sub, i) then i
    else RFindFrom(s, sub, i - 1)
  }

  /** Python's `s.rfind(sub)`: the last index where `sub` occurs, or -1. */
  function RFind(s: string, sub: string): (r: int)
    ensures r == -1 <==> !Contains(s, sub)
    ensures r != -1 ==> OccursAt(s, sub, r) && forall j :: r < j ==> !OccursAt(s, sub, j)
  {
    RFindFrom(s, sub, |s| - |sub|)
  }

  /** Python's `s.split(sep)` for a non-empty separator. */
  function Split(s: string, sep: string): (r: seq<string>)
    requires |sep| > 0
    ensures |r| >= 1
    decreases |s|
  {
    var i := Find(s, sep);
    if i < 0 then [s] else [s[..i]] + Split(s[i + |sep|..], sep)
  }

  /** Python's `sep.join(xs)`. */
  function Join(xs: seq<string>, sep: string): string {
    if |xs| == 0 then ""
    else if |xs| == 1 then xs[0]
    else xs[0] + sep + Join(xs[1..], sep)
  }

  /** Python's `s.replace(old, new)`: every non-overlapping occurrence, left to right. */
  function Replace(s: string, pattern: string, replacement: string): string
    requires |pattern| > 0
  {
    Join(Split(s, pattern), replacement)
  }

  /** Joining a piece in front of at least one more piece puts a separator between them. */
  lemma JoinCons(x: string, ys: seq<string>, sep: string)
    requires |ys| >= 1
    ensures Join([x] + ys, sep) == x + sep + Join(ys, sep)
  {
    assert ([x] + ys)[0] == x;
    assert ([x] + ys)[1..] == ys;
  }

  /** Splitting and joining again with the same separator gives the text back. */
  lemma {:induction false} JoinSplit(s: string, sep: string)
    requires |sep| > 0
    ensures Join(Split(s, sep), sep) == s
    decreases |s|
  {
    var i := Find(s, sep);
    if i >= 0 {
      var rest := s[i + |sep|..];
      var parts := Split(rest, sep);
      assert Split(s, sep) == [s[..i]] + parts;
      JoinSplit(rest, sep);
      JoinCons(s[..i], parts, sep);
      assert s[i..i + |sep|] == sep;
      assert s == s[..i] + s[i..i + |sep|] + rest;
    }
  }

  /** Splitting at a single character gives one piece more than the text has of that character. */
  lemma {:induction false} SplitCount(s: string, c: char)
    ensures |Split(s, [c])| == multiset(s)[c] + 1
    decreases |s|
  {
    var i := Find(s, [c]);
    forall j | 0 <= j < (if i < 0 then |s| else i) ensures s[j] != c {
      if s[j] == c {
        assert s[j..j + 1] == [c];
        assert OccursAt(s, [c], j);
      }
    }
    if i < 0 {
      assert c !in multiset(s);
    } else {
      var head, rest := s[..i], s[i + 1..];
      SplitCount(rest, c);
      assert s[i..i + 1] == [c];
      assert s == head + [c] + rest;
      assert c !in multiset(head);
      assert multiset(s) == multiset(head) + multiset([c]) + multiset(rest);
    }
  }

  /** No piece produced by `Split` contains the separator. */
  lemma {:induction false} SplitPiecesFree(s: string, sep: string)
    requires |sep| > 0
    ensures forall k :: 0 <= k < |Split(s, sep)| ==> !Contains(Split(s, sep)[k], sep)
    decreases |s|
  {
    var i := Find(s, sep);
    if i >= 0 {
      var rest := s[i + |sep|..];
      SplitPiecesFree(rest, sep);
      var head := s[..i];
      forall j | OccursAt(head, sep, j) ensures false {
        assert j + |sep| <= i;
        assert s[j..j + |sep|] == head[j..j + |sep|];
        assert OccursAt(s, sep, j);
      }
      assert Split(s, sep) == [head] + Split(rest, sep);
    }
  }

  /**
   * `x` may be followed by `sep` without creating an earlier occurrence
   * of `sep`: no occurrence lies within `x` or straddles into `sep`.
   */
  predicate Separable(x: string, sep: string)
    requires |sep| > 0
  {
    !Contains(x + sep[..|sep| - 1], sep)
  }

  /** A separable piece has no occurrence of the separator of its own. */
  lemma SeparableFree(x: string, sep: string)
    requires |sep| > 0 && Separable(x, sep)
    ensures !Contains(x, sep)
  {
    forall j | OccursAt(x, sep, j) ensures false {
      assert (x + sep[..|sep| - 1])[j..j + |sep|] == x[j..j + |sep|];
      assert OccursAt(x + sep[..|sep| - 1], sep, j);
    }
  }

  /** In `x + sep + t`, the first occurrence of `sep` is the one right after `x`. */
  lemma FindAfterSeparable(x: string, sep: string, t: string)
    requires |sep| > 0 && Separable(x, sep)
    ensures Find(x + sep + t, sep) == |x|
  {
    var s := x + sep + t;
    assert s[|x|..|x| + |sep|] == sep;
    assert OccursAt(s, sep, |x|);
    forall j | 0 <= j < |x| && OccursAt(s, sep, j) ensures false {
      var p := x + sep[..|sep| - 1];
      assert s[..|x| + |sep| - 1] == p;
      assert p[j..j + |sep|] == s[j..j + |sep|];
      assert OccursAt(p, sep, j);
    }
  }

  /** Joining pieces that are separable and splitting again gives the pieces back. */
  lemma {:induction false} SplitJoin(xs: seq<string>, sep: string)
    requires |sep| > 0 && |xs| >= 1
    requires forall k :: 0 <= k < |xs| ==> Separable(xs[k], sep)
    ensures Split(Join(xs, sep), sep) == xs
    decreases |xs|
  {
    if |xs| == 1 {
      SeparableFree(xs[0], sep);
    } else {
      var rest := xs[1..];
      var tail := Join(rest, sep);
      FindAfterSeparable(xs[0], sep, tail);
      var s := xs[0] + sep + tail;
      assert Join(xs, sep) == s;
      assert s[..|xs[0]|] == xs[0];
      assert s[|xs[0]| + |sep|..] == tail;
      assert Split(s, sep) == [xs[0]] + Split(tail, sep);
      assert forall k :: 0 <= k < |rest| ==> rest[k] == xs[k + 1];
      SplitJoin(rest, sep);
      assert xs == [xs[0]] + rest;
    }
  }

  /** A piece without ", " can always be followed by ", " (the comma cannot start a second one). */
  lemma CommaSpaceSeparable(x: string)
    requires !Contains(x, ", ")
    ensures Separable(x, ", ")
  {
    var p := x + ",";
    assert ", "[..1] == ",";
    forall j | 0 <= j <= |p| ensures !OccursAt(p, ", ", j) {
      if j + 2 <= |x| {
        assert !OccursAt(x, ", ", j);
        assert x[j..j + 2] == p[j..j + 2];
      } else if j + 2 == |p| {
        assert p[j + 1] == ',';
        assert p[j..j + 2][1] == ',';
      }
    }
  }

  /** A one-character separator found in `a` is found at the same place in `a + t`. */
  lemma FindInPrefix(a: string, c: char, t: string)
    requires Contains(a, [c])
    ensures Find(a + t, [c]) == Find(a, [c])
  {
    var i := Find(a, [c]);
    var s := a + t;
    assert OccursAt(s, [c], i) by { assert s[i..i + 1] == a[i..i + 1]; }
    forall j | 0 <= j < i ensures !OccursAt(s, [c], j) {
      assert s[j..j + 1] == a[j..j + 1];
      assert !OccursAt(a, [c], j);
    }
  }

  /** Splitting `a`, a one-character separator and a last piece `b` without it appends `b`. */
  lemma {:induction false} SplitAppend(a: string, c: char, b: string)
    requires !Contains(b, [c])
    ensures Split(a + [c] + b, [c]) == Split(a, [c]) + [b]
    decreases |a|
  {
    var s := a + [c] + b;
    if Contains(a, [c]) {
      var i := Find(a, [c]);
      assert s == a + ([c] + b);
      FindInPrefix(a, c, [c] + b);
      var tail := a[i + 1..];
      assert s[..i] == a[..i];
      assert s[i + 1..] == tail + [c] + b;
      assert Split(s, [c]) == [a[..i]] + Split(tail + [c] + b, [c]);
      assert Split(a, [c]) == [a[..i]] + Split(tail, [c]);
      SplitAppend(tail, c, b);
    } else {
      SingleSeparable(a, c);
      FindAfterSeparable(a, [c], b);
      assert s[..|a|] == a;
      assert s[|a| + 1..] == b;
      assert Split(b, [c]) == [b];
      assert Split(s, [c]) == [a] + Split(b, [c]);
    }
  }

  /** A piece without a one-character separator can be followed by it. */
  lemma SingleSeparable(x: string, c: char)
    requires !Contains(x, [c])
    ensures Separable(x, [c])
  {
    assert x + [c][..0] == x;
  }

  /** Python's `str.isspace()` for one character. */
  predicate IsSpace(c: char) {
    ('\U{9}' <= c <= '\U{D}') || ('\U{1C}' <= c <= '\U{20}') || c == '\U{85}' || c == '\U{A0}'
    || c == '\U{1680}' || ('\U{2000}' <= c <= '\U{200A}') || c == '\U{2028}' || c == '\U{2029}'
    || c == '\U{202F}' || c == '\U{205F}' || c == '\U{3000}'
  }

  function StripLeft(s: string): (r: string)
    ensures |r| == 0 || !IsSpace(r[0])
    decreases |s|
  {
    if |s| > 0 && IsSpace(s[0]) then StripLeft(s[1..]) else s
  }

  function StripRight(s: string): (r: string)
    ensures |r| == 0 || !IsSpace(r[|r| - 1])
    decreases |s|
  {
    if |s| > 0 && IsSpace(s[|s| - 1]) then StripRight(s[..|s| - 1]) else s
  }

  /** Python's `s.strip()`. */
  function Strip(s: string): string {
    StripRight(StripLeft(s))
  }

  /** A text with no surrounding whitespace. */
  predicate IsStripped(s: string) {
    |s| == 0 || (!IsSpace(s[0]) && !IsSpace(s[|s| - 1]))
  }

  /** Stripping a text without surrounding whitespace, after one leading blank, gives the text. */
  lemma StripBlankPrefixed(x: string)
    requires IsStripped(x)
    ensures Strip(" " + x) == x
  {
    assert (" " + x)[1..] == x;
    assert StripLeft(" " + x) == StripLeft(x) == x;
  }

  lemma StripStripped(x: string)
    requires IsStripped(x)
    ensures Strip(x) == x
  {
  }

  /** Python's `c.lower()` on ASCII letters. */
  function LowerChar(c: char): char {
    if 'A' <= c <= 'Z' then (c as int + 32) as char else c
  }

  /** Python's `s.lower()` on ASCII letters. */
  function Lower(s: string): (r: string)
    ensures |r| == |s|
    ensures forall i :: 0 <= i < |s| ==> r[i] == LowerChar(s[i])
  {
    seq(|s|, i requires 0 <= i < |s| => LowerChar(s[i]))
  }

  /** Every character is ASCII: `s.encode('ascii')` does not raise. */
  predicate IsAscii(s: string) {
    forall i :: 0 <= i < |s| ==> s[i] as int < 128
  }

  predicate IsDigit(c: char) {
    '0' <= c <= '9'
  }

  /** Python's `s.isnumeric()`, restricted to ASCII digits. */
  predicate IsNumeric(s: string) {
    |s| > 0 && forall i :: 0 <= i < |s| ==> IsDigit(s[i])
  }

  function DigitValue(c: char): nat
    requires IsDigit(c)
  {
    c as int - '0' as int
  }

  function DigitChar(d: nat): char
    requires d < 10
  {
    ('0' as int + d) as char
  }

  /** Python's `str(n)` for a natural number. */
  function NatToString(n: nat): (r: string)
    ensures |r| >= 1
    ensures forall i :: 0 <= i < |r| ==> IsDigit(r[i])
  {
    if n < 10 then [DigitChar(n)] else NatToString(n / 10) + [DigitChar(n % 10)]
  }

  /** Python's `str(i)` for an integer. */
  function IntToString(i: int): string {
    if i < 0 then "-" + NatToString(-i) else NatToString(i)
  }

  /** Python's `int(s)` for a text of decimal digits. */
  function ParseNat(s: string): nat
    requires forall i :: 0 <= i < |s| ==> IsDigit(s[i])
  {
    if |s| == 0 then 0 else ParseNat(s[..|s| - 1]) * 10 + DigitValue(s[|s| - 1])
  }

  /** `int(str(n)) == n`. */
  lemma {:induction false} ParseNatToString(n: nat)
    ensures ParseNat(NatToString(n)) == n
  {
    if n >= 10 {
      var s := NatToString(n);
      assert s[..|s| - 1] == NatToString(n / 10);
      ParseNatToString(n / 10);
    }
  }

  lemma NatToStringNumeric(n: nat)
    ensures IsNumeric(NatToString(n))
  {
  }

  /** Lower-casing twice is lower-casing once. */
  lemma LowerIdempotent(s: string)
    ensures Lower(Lower(s)) == Lower(s)
  {
  }

  /** With an ASCII separator, a join is ASCII exactly when every piece is. */
  lemma {:induction false} JoinAscii(xs: seq<string>, sep: string)
    requires IsAscii(sep)
    ensures IsAscii(Join(xs, sep)) <==> forall k :: 0 <= k < |xs| ==> IsAscii(xs[k])
    decreases |xs|
  {
    if |xs| >= 2 {
      JoinAscii(xs[1..], sep);
      var t := Join(xs[1..], sep);
      var j := xs[0] + sep + t;
      assert forall i :: 0 <= i < |xs[0]| ==> j[i] == xs[0][i];
      assert forall i :: 0 <= i < |t| ==> j[|xs[0]| + |sep| + i] == t[i];
      assert forall k :: 1 <= k < |xs| ==> xs[k] == xs[1..][k - 1];
      if IsAscii(j) {
        assert IsAscii(xs[0]);
        assert IsAscii(t);
      }
    }
  }
}
