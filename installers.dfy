/**
 * The conda installer build's package specifications: the default pins,
 * the merging of extra specifications given on the command line, the list
 * handed on to the environment lock, and the names derived from the host
 * (platform string and artifact file name).
 *
 * The version the source tree reports and the versions found in the local
 * build channel are inputs; reading them is not modelled.
 */
module Installers {
  import opened Wrappers
  import opened Text
  import opened Dicts
  import opened Seqs
  import opened Paths

  /** Package name to the pieces after it: an operator, a version, and so on; empty for a bare name. */
  type Specs = seq<(string, seq<string>)>

  /** The packages whose local channel version, when there is one, becomes their default pin. */
  const LOCAL_PACKAGES: seq<string> := ["spyder", "spyder-kernels", "qtconsole", "python-lsp-server"]

  /** The operator the pattern `(=|>=|<=|!=)` matches at position `i`, or "" for none; `=` is tried first. */
  function OpAt(s: string, i: nat): (r: string)
    ensures r != "" ==> i + |r| <= |s| && s[i..i + |r|] == r
    ensures r in {"", "=", ">=", "<=", "!="}
  {
    if i < |s| && s[i] == '=' then "="
    else if i + 2 <= |s| && s[i..i + 2] in {">=", "<=", "!="} then s[i..i + 2]
    else ""
  }

  /**
   * `re.split` with the captured operator pattern, scanning from `i` with
   * the current piece begun at `start`: pieces and the operators between them.
   */
  function SplitFrom(s: string, start: nat, i: nat): (r: seq<string>)
    requires start <= i <= |s|
    ensures |r| >= 1 && |r| % 2 == 1
    decreases |s| - i
  {
    if i == |s| then [s[start..]]
    else
      var op := OpAt(s, i);
      if op == "" then SplitFrom(s, start, i + 1)
      else [s[start..i], op] + SplitFrom(s, i + |op|, i + |op|)
  }

  /** `re.split("(=|>=|<=|!=)", value)`. */
  function OperatorSplit(value: string): seq<string> {
    SplitFrom(value, 0, 0)
  }

  /** The package of a specification: the text before its first operator. */
  function Package(value: string): string {
    OperatorSplit(value)[0]
  }

  /** The rest of a specification: its first operator and all that follows, as pieces. */
  function SpecOf(value: string): (r: seq<string>)
    ensures |r| % 2 == 0
  {
    OperatorSplit(value)[1..]
  }

  /** An operator occurs in `s` at or after `i`. */
  predicate OperatorFrom(s: string, i: nat) {
    exists j :: i <= j < |s| && OpAt(s, j) != ""
  }

  /** The pieces of a scan concatenate back to the text scanned. */
  lemma {:induction false} SplitFromRebuilds(s: string, start: nat, i: nat)
    requires start <= i <= |s|
    ensures Concat(SplitFrom(s, start, i)) == s[start..]
    decreases |s| - i, 1
  {
    if i == |s| {
      assert SplitFrom(s, start, i) == [s[start..]];
    } else if OpAt(s, i) == "" {
      assert SplitFrom(s, start, i) == SplitFrom(s, start, i + 1);
      SplitFromRebuilds(s, start, i + 1);
    } else {
      RebuildsAtOperator(s, start, i);
    }
  }

  /** The same, when an operator starts at `i`: the piece before it, the operator, and the rest. */
  lemma {:induction false} RebuildsAtOperator(s: string, start: nat, i: nat)
    requires start <= i < |s| && OpAt(s, i) != ""
    ensures Concat(SplitFrom(s, start, i)) == s[start..]
    decreases |s| - i, 0
  {
    var op := OpAt(s, i);
    var j := i + |op|;
    var rest := SplitFrom(s, j, j);
    assert SplitFrom(s, start, i) == [s[start..i], op] + rest;
    SplitFromRebuilds(s, j, j);
    JoinPair(s[start..i], op, rest);
    assert s[i..j] == op;
    SliceThree(s, start, i, j);
  }

  lemma SliceThree(s: string, a: nat, b: nat, c: nat)
    requires a <= b <= c <= |s|
    ensures s[a..] == s[a..b] + s[b..c] + s[c..]
  {
  }

  /** `"".join(xs)`. */
  function Concat(xs: seq<string>): string
    decreases |xs|
  {
    if |xs| == 0 then "" else xs[0] + Concat(xs[1..])
  }

  /** Concatenating a piece, an operator and further pieces. */
  lemma JoinPair(head: string, op: string, rest: seq<string>)
    ensures Concat([head, op] + rest) == head + op + Concat(rest)
  {
    var xs := [head, op] + rest;
    assert xs[1..] == [op] + rest;
    assert ([op] + rest)[1..] == rest;
  }

  /** A scan gives a single piece exactly when no operator lies ahead. */
  lemma {:induction false} SplitFromSingle(s: string, start: nat, i: nat)
    requires start <= i <= |s|
    ensures |SplitFrom(s, start, i)| == 1 <==> !OperatorFrom(s, i)
    decreases |s| - i
  {
    if i < |s| {
      var op := OpAt(s, i);
      if op == "" {
        SplitFromSingle(s, start, i + 1);
        if OperatorFrom(s, i) {
          var j :| i <= j < |s| && OpAt(s, j) != "";
          assert j != i;
          assert OperatorFrom(s, i + 1);
        }
        if OperatorFrom(s, i + 1) {
          var j :| i + 1 <= j < |s| && OpAt(s, j) != "";
          assert OperatorFrom(s, i);
        }
      } else {
        assert OperatorFrom(s, i);
      }
    }
  }

  /** The package and the spec pieces rebuild the specification exactly. */
  lemma Rebuilds(value: string)
    ensures Package(value) + Concat(SpecOf(value)) == value
  {
    SplitFromRebuilds(value, 0, 0);
    assert value[0..] == value;
  }

  /** A specification has spec pieces exactly when it contains an operator. */
  lemma EmptySpecIffBare(value: string)
    ensures SpecOf(value) == [] <==> !OperatorFrom(value, 0)
  {
    SplitFromSingle(value, 0, 0);
  }

  /** Every spec list is empty or holds an operator and the piece after it. */
  predicate WellShaped(specs: Specs) {
    forall m :: 0 <= m < |specs| ==> |specs[m].1| % 2 == 0
  }

  lemma PutShaped(specs: Specs, k: string, s: seq<string>)
    requires UniqueKeys(specs) && WellShaped(specs) && |s| % 2 == 0
    ensures WellShaped(Put(specs, k, s))
  {
    var r := Put(specs, k, s);
    forall m | 0 <= m < |r| ensures |r[m].1| % 2 == 0 {
      var key := r[m].0;
      assert Get(r, key) == Some(r[m].1);
      if key != k {
        assert HasKey(specs, key);
        var i := IndexOf(specs, key);
        assert Get(specs, key) == Some(specs[i].1);
      }
    }
  }

  /** The default pins after the local channel loop has visited `pkgs`. */
  function WithLocal(specs: Specs, pkgs: seq<string>, channel: map<string, string>): (r: Specs)
    requires UniqueKeys(specs) && WellShaped(specs)
    ensures UniqueKeys(r) && WellShaped(r)
    decreases |pkgs|
  {
    if |pkgs| == 0 then specs
    else
      var before := WithLocal(specs, pkgs[..|pkgs| - 1], channel);
      var pkg := pkgs[|pkgs| - 1];
      if pkg in channel && channel[pkg] != "" then
        PutShaped(before, pkg, ["=", channel[pkg]]);
        Put(before, pkg, ["=", channel[pkg]])
      else before
  }

  /** The specs before any extra one: spyder pinned to the source version, then to the local channel's versions. */
  function Defaults(scmVersion: string, noLocal: bool, channel: map<string, string>): (r: Specs)
    ensures UniqueKeys(r) && WellShaped(r)
  {
    var base := [("spyder", ["=", scmVersion])];
    assert WellShaped(base);
    if noLocal then base else WithLocal(base, LOCAL_PACKAGES, channel)
  }

  /** The specs after the extra specifications, each replacing the entry of its package. */
  function WithExtras(specs: Specs, extras: seq<string>): (r: Specs)
    requires UniqueKeys(specs) && WellShaped(specs)
    ensures UniqueKeys(r) && WellShaped(r)
    decreases |extras|
  {
    if |extras| == 0 then specs
    else
      var before := WithExtras(specs, extras[..|extras| - 1]);
      var value := extras[|extras| - 1];
      PutShaped(before, Package(value), SpecOf(value));
      Put(before, Package(value), SpecOf(value))
  }

  /** No extra specification from position `j` on names `pkg`. */
  predicate UnnamedFrom(extras: seq<string>, pkg: string, j: nat) {
    forall j' :: j <= j' < |extras| ==> Package(extras[j']) != pkg
  }

  /** A package no extra specification names keeps its default entry. */
  lemma {:induction false} UnnamedKept(specs: Specs, extras: seq<string>, pkg: string)
    requires UniqueKeys(specs) && WellShaped(specs) && UnnamedFrom(extras, pkg, 0)
    ensures Get(WithExtras(specs, extras), pkg) == Get(specs, pkg)
    decreases |extras|
  {
    if |extras| > 0 {
      var init := extras[..|extras| - 1];
      assert UnnamedFrom(init, pkg, 0) by {
        forall j' | 0 <= j' < |init| ensures Package(init[j']) != pkg {
          assert init[j'] == extras[j'];
        }
      }
      UnnamedKept(specs, init, pkg);
    }
  }

  /** The last extra specification naming a package decides its entry. */
  lemma {:induction false} LastSpecWins(specs: Specs, extras: seq<string>, j: nat)
    requires UniqueKeys(specs) && WellShaped(specs)
    requires j < |extras| && UnnamedFrom(extras, Package(extras[j]), j + 1)
    ensures Get(WithExtras(specs, extras), Package(extras[j])) == Some(SpecOf(extras[j]))
    decreases |extras|
  {
    var pkg := Package(extras[j]);
    var n := |extras| - 1;
    var init := extras[..n];
    if j < n {
      assert init[j] == extras[j];
      assert UnnamedFrom(init, pkg, j + 1) by {
        forall j' | j + 1 <= j' < |init| ensures Package(init[j']) != pkg {
          assert init[j'] == extras[j'];
        }
      }
      LastSpecWins(specs, init, j);
      assert Package(extras[n]) != pkg;
    }
  }

  predicate HasSpec(entry: (string, seq<string>)) {
    entry.1 != []
  }

  /** `[k + "".join(s) for k, s in specs.items() if s]`. */
  function Rebuilt(specs: Specs): (r: seq<string>)
    ensures forall x :: x in r <==> exists e :: e in specs && e.1 != [] && x == e.0 + Concat(e.1)
  {
    var kept := Filter(specs, HasSpec);
    var r := seq(|kept|, m requires 0 <= m < |kept| => kept[m].0 + Concat(kept[m].1));
    assert forall x :: x in r ==> exists e :: e in specs && e.1 != [] && x == e.0 + Concat(e.1) by {
      forall x | x in r ensures exists e :: e in specs && e.1 != [] && x == e.0 + Concat(e.1) {
        var m :| 0 <= m < |r| && r[m] == x;
        assert kept[m] in kept;
      }
    }
    assert forall e :: e in specs && e.1 != [] ==> e.0 + Concat(e.1) in r by {
      forall e | e in specs && e.1 != [] ensures e.0 + Concat(e.1) in r {
        assert e in kept;
        var m :| 0 <= m < |kept| && kept[m] == e;
        assert r[m] == e.0 + Concat(e.1);
      }
    }
    r
  }

  /** What `_process_extra_specs` returns: the rebuilt list and spyder's version, or the error it raises. */
  function Processed(defaults: Specs, extras: seq<string>): Result<(seq<string>, string), string>
    requires UniqueKeys(defaults) && WellShaped(defaults)
  {
    var specs := WithExtras(defaults, extras);
    var spyder := Get(specs, "spyder");
    if spyder.None? || spyder.value == [] then Err("ValueError")
    else
      var i := IndexOf(specs, "spyder");
      assert |specs[i].1| % 2 == 0;
      Ok((Rebuilt(specs), spyder.value[1]))
  }

  /**
   * An extra specification with an operator that no later one overrides is
   * in the output list exactly as it was written.
   */
  lemma VerbatimInOutput(defaults: Specs, extras: seq<string>, j: nat)
    requires UniqueKeys(defaults) && WellShaped(defaults)
    requires j < |extras| && OperatorFrom(extras[j], 0) && UnnamedFrom(extras, Package(extras[j]), j + 1)
    ensures extras[j] in Rebuilt(WithExtras(defaults, extras))
  {
    var value := extras[j];
    var specs := WithExtras(defaults, extras);
    LastSpecWins(defaults, extras, j);
    EmptySpecIffBare(value);
    Rebuilds(value);
    var i := IndexOf(specs, Package(value));
    assert specs[i] == (Package(value), SpecOf(value));
    assert specs[i] in specs;
  }

  /**
   * The outcome: a `ValueError` exactly when spyder's final spec list is
   * empty, which happens exactly when the last extra specification naming
   * spyder has no operator; otherwise the version is the piece after
   * spyder's operator, and the list is the rebuilt specs with an operator.
   */
  lemma ProcessedOutcome(defaults: Specs, extras: seq<string>)
    requires UniqueKeys(defaults) && WellShaped(defaults)
    ensures var specs, r := WithExtras(defaults, extras), Processed(defaults, extras);
      && (r.Err? <==> !HasKey(specs, "spyder") || Get(specs, "spyder").value == [])
      && (r.Ok? ==> |Get(specs, "spyder").value| >= 2 && r.value == (Rebuilt(specs), Get(specs, "spyder").value[1]))
      && (r.Ok? ==> forall x :: x in r.value.0 <==> exists e :: e in specs && e.1 != [] && x == e.0 + Concat(e.1))
  {
    var specs := WithExtras(defaults, extras);
    if HasKey(specs, "spyder") {
      var i := IndexOf(specs, "spyder");
      assert |specs[i].1| % 2 == 0;
    }
  }

  /** When the last extra specification naming spyder is bare, no list is produced. */
  lemma BareSpyderFails(defaults: Specs, extras: seq<string>, j: nat)
    requires UniqueKeys(defaults) && WellShaped(defaults)
    requires j < |extras| && Package(extras[j]) == "spyder" && !OperatorFrom(extras[j], 0)
    requires UnnamedFrom(extras, "spyder", j + 1)
    ensures Processed(defaults, extras) == Err("ValueError")
  {
    LastSpecWins(defaults, extras, j);
    EmptySpecIffBare(extras[j]);
  }

  /** With no extra specification for spyder, its version is the default pin's. */
  lemma DefaultVersionKept(scmVersion: string, noLocal: bool, channel: map<string, string>, extras: seq<string>)
    requires UnnamedFrom(extras, "spyder", 0)
    ensures var defaults := Defaults(scmVersion, noLocal, channel);
      var local := !noLocal && "spyder" in channel && channel["spyder"] != "";
      Processed(defaults, extras) == Ok((Rebuilt(WithExtras(defaults, extras)), if local then channel["spyder"] else scmVersion))
  {
    var defaults := Defaults(scmVersion, noLocal, channel);
    UnnamedKept(defaults, extras, "spyder");
    var base := [("spyder", ["=", scmVersion])];
    assert Get(base, "spyder") == Some(["=", scmVersion]);
    if !noLocal {
      SpyderPin(base, LOCAL_PACKAGES, channel);
    }
  }

  /** The local channel loop pins spyder to the channel's version when there is one, and leaves it otherwise. */
  lemma {:induction false} SpyderPin(specs: Specs, pkgs: seq<string>, channel: map<string, string>)
    requires UniqueKeys(specs) && WellShaped(specs)
    ensures var local := "spyder" in pkgs && "spyder" in channel && channel["spyder"] != "";
      Get(WithLocal(specs, pkgs, channel), "spyder") == if local then Some(["=", channel["spyder"]]) else Get(specs, "spyder")
    decreases |pkgs|
  {
    if |pkgs| > 0 {
      var init := pkgs[..|pkgs| - 1];
      SpyderPin(specs, init, channel);
      assert pkgs == init + [pkgs[|pkgs| - 1]];
    }
  }

  /** The local channel loop of `_process_extra_specs`. */
  method LocalDefaults(scmVersion: string, channel: map<string, string>) returns (specs: Specs)
    ensures specs == Defaults(scmVersion, false, channel)
  {
    specs := [("spyder", ["=", scmVersion])];
    assert WellShaped(specs);
    var i := 0;
    while i < |LOCAL_PACKAGES|
      invariant 0 <= i <= |LOCAL_PACKAGES|
      invariant UniqueKeys(specs) && WellShaped(specs)
      invariant specs == WithLocal([("spyder", ["=", scmVersion])], LOCAL_PACKAGES[..i], channel)
    {
      assert LOCAL_PACKAGES[..i + 1][..i] == LOCAL_PACKAGES[..i];
      var pkg := LOCAL_PACKAGES[i];
      if pkg in channel && channel[pkg] != "" {
        PutShaped(specs, pkg, ["=", channel[pkg]]);
        specs := Put(specs, pkg, ["=", channel[pkg]]);
      }
      i := i + 1;
    }
    assert LOCAL_PACKAGES[..i] == LOCAL_PACKAGES;
  }

  /** `_process_extra_specs`: the defaults, then the extra specifications in order, then the checks. */
  method ProcessExtraSpecs(extras: seq<string>, noLocal: bool, scmVersion: string, channel: map<string, string>)
    returns (r: Result<(seq<string>, string), string>)
    ensures r == Processed(Defaults(scmVersion, noLocal, channel), extras)
  {
    var specs: Specs;
    if noLocal {
      specs := [("spyder", ["=", scmVersion])];
    } else {
      specs := LocalDefaults(scmVersion, channel);
    }
    var defaults := specs;
    var i := 0;
    while i < |extras|
      invariant 0 <= i <= |extras|
      invariant UniqueKeys(specs) && WellShaped(specs)
      invariant specs == WithExtras(defaults, extras[..i])
    {
      assert extras[..i + 1][..i] == extras[..i];
      var value := extras[i];
      var pieces := OperatorSplit(value);
      var pkg, spec := pieces[0], pieces[1..];
      PutShaped(specs, pkg, spec);
      specs := Put(specs, pkg, spec);
      i := i + 1;
    }
    assert extras[..i] == extras;
    var spyder := Get(specs, "spyder");
    if spyder.None? || spyder.value == [] {
      return Err("ValueError");
    }
    ProcessedOutcome(defaults, extras);
    return Ok((Rebuilt(specs), spyder.value[1]));
  }

  /** The host the build runs on, as `os.name` and `sys.platform` give it. */
  datatype Host = Host(osName: string, sysPlatform: string)

  /** The operating system's name, platform prefix and installer kinds. */
  datatype Target = Target(os: string, platformPrefix: string, installChoices: seq<string>)

  /** The module-level choice of target: Windows first, then Linux, then macOS; any other host is a `RuntimeError`. */
  function TargetOf(h: Host): (r: Result<Target, string>)
    ensures h.osName == "nt" ==> r == Ok(Target("Windows", "win-", ["exe"]))
    ensures h.osName != "nt" && StartsWith(h.sysPlatform, "linux") ==> r == Ok(Target("Linux", "linux-", ["sh"]))
    ensures h.osName != "nt" && !StartsWith(h.sysPlatform, "linux") && h.sysPlatform == "darwin" ==>
      r == Ok(Target("macOS", "osx-", ["pkg", "sh"]))
    ensures r.Err? <==> h.osName != "nt" && !StartsWith(h.sysPlatform, "linux") && h.sysPlatform != "darwin"
  {
    if h.osName == "nt" then Ok(Target("Windows", "win-", ["exe"]))
    else if StartsWith(h.sysPlatform, "linux") then Ok(Target("Linux", "linux-", ["sh"]))
    else if h.sysPlatform == "darwin" then Ok(Target("macOS", "osx-", ["pkg", "sh"]))
    else Err("RuntimeError")
  }

  /** `(platform.machine() or "generic").lower().replace("amd64", "x86_64")`. */
  function Arch(machine: string): string {
    Replace(Lower(if machine == "" then "generic" else machine), "amd64", "x86_64")
  }

  /** `(prefix + ARCH).replace("x86_64", "64")`. */
  function Platform(prefix: string, machine: string): string {
    Replace(prefix + Arch(machine), "x86_64", "64")
  }

  /** Replacing a pattern that does not occur gives the text back. */
  lemma ReplaceAbsent(s: string, pattern: string, replacement: string)
    requires |pattern| > 0 && !Contains(s, pattern)
    ensures Replace(s, pattern, replacement) == s
  {
    assert Split(s, pattern) == [s];
  }

  /** Replacing a pattern that occurs once, at the end, replaces that occurrence. */
  lemma ReplaceAtEnd(a: string, pattern: string, replacement: string)
    requires |pattern| > 0 && Separable(a, pattern)
    ensures Replace(a + pattern, pattern, replacement) == a + replacement
  {
    FindAfterSeparable(a, pattern, "");
    var s := a + pattern;
    assert a + pattern + "" == s;
    assert s[..|a|] == a;
    assert s[|a| + |pattern|..] == "";
    assert Find("", pattern) == -1;
    assert Split("", pattern) == [""];
    assert Split(s, pattern) == [a] + [""];
    assert Join([a, ""], replacement) == a + replacement + "";
  }

  /** A machine name without `amd64` is only lowercased, and without `x86_64` the platform is the prefix with it. */
  lemma PlainMachine(prefix: string, machine: string)
    requires machine != "" && !Contains(Lower(machine), "amd64") && !Contains(prefix + Lower(machine), "x86_64")
    ensures Arch(machine) == Lower(machine)
    ensures Platform(prefix, machine) == prefix + Lower(machine)
  {
    ReplaceAbsent(Lower(machine), "amd64", "x86_64");
    ReplaceAbsent(prefix + Lower(machine), "x86_64", "64");
  }

  /**
   * An `AMD64` machine (in any case) is `x86_64`, and its platform is the
   * prefix with `64` when no earlier `x86_64` starts within the prefix.
   */
  lemma Amd64Machine(prefix: string, machine: string)
    requires Lower(machine) == "amd64" && Separable(prefix, "x86_64")
    ensures Arch(machine) == "x86_64"
    ensures Platform(prefix, machine) == prefix + "64"
  {
    assert machine != "";
    ReplaceAtEnd("", "amd64", "x86_64");
    assert "" + "amd64" == "amd64";
    ReplaceAtEnd(prefix, "x86_64", "64");
  }

  /** A prefix without the digit 8 cannot hold the start of an `x86_64`. */
  lemma SeparableWithoutEight(prefix: string)
    requires forall k :: 0 <= k < |prefix| ==> prefix[k] != '8'
    ensures Separable(prefix, "x86_64")
  {
    var s := prefix + "x86_6";
    assert "x86_64"[..|"x86_64"| - 1] == "x86_6";
    forall j | 0 <= j <= |s| ensures !OccursAt(s, "x86_64", j) {
      if j + 6 <= |s| {
        assert s[j + 1] != '8' by {
          if j + 1 < |prefix| {
            assert s[j + 1] == prefix[j + 1];
          } else {
            assert s[j + 1] == 'x';
          }
        }
        assert s[j..j + 6][1] != "x86_64"[1];
      }
    }
  }

  /** None of the three platform prefixes lets an `x86_64` start inside it. */
  lemma PrefixesSeparable()
    ensures Separable("win-", "x86_64") && Separable("linux-", "x86_64") && Separable("osx-", "x86_64")
  {
    SeparableWithoutEight("win-");
    SeparableWithoutEight("linux-");
    SeparableWithoutEight("osx-");
  }

  /** An empty machine name is `generic`. */
  lemma GenericMachine()
    ensures Arch("") == "generic"
  {
    var g := "generic";
    assert Lower(g) == g;
    forall j | 0 <= j <= |g| ensures !OccursAt(g, "amd64", j) {
      assert j < |g| ==> g[j] != 'a';
    }
    ReplaceAbsent(g, "amd64", "x86_64");
  }

  /** The file name of an installer: `Spyder-{OS}-{ARCH}.{install_type}`. */
  function OutputName(os: string, arch: string, installType: string): string {
    "Spyder-" + os + "-" + arch + "." + installType
  }

  /** `_output_file`: the installer file name under the distribution directory. */
  function OutputFile(dist: string, os: string, arch: string, installType: string): string {
    PathJoin([dist, OutputName(os, arch, installType)], '/')
  }

  /**
   * The installer lies directly in the distribution directory under its own
   * name, and installers of two kinds get two different files.
   */
  lemma OutputFileParts(dist: string, os: string, arch: string, installType: string, otherType: string)
    requires dist != "" && dist[|dist| - 1] != '/'
    requires !Contains(OutputName(os, arch, installType), ['/'])
    ensures Dirname(OutputFile(dist, os, arch, installType), '/') == dist
    ensures Basename(OutputFile(dist, os, arch, installType), '/') == OutputName(os, arch, installType)
    ensures otherType != installType ==> OutputFile(dist, os, arch, otherType) != OutputFile(dist, os, arch, installType)
  {
    var name, other := OutputName(os, arch, installType), OutputName(os, arch, otherType);
    JoinApart(dist, name, '/');
    JoinTwo(dist, name, '/');
    JoinTwo(dist, other, '/');
    if other != name {
      assert dist + ['/'] + other != dist + ['/'] + name by {
        SuffixDiffers(dist + ['/'], other, name);
      }
    }
    var stem := "Spyder-" + os + "-" + arch + ".";
    assert name == stem + installType && other == stem + otherType;
    if otherType != installType {
      SuffixDiffers(stem, otherType, installType);
    }
  }

  lemma SuffixDiffers(head: string, a: string, b: string)
    requires a != b
    ensures head + a != head + b
  {
    assert (head + a)[|head|..] == a;
    assert (head + b)[|head|..] == b;
  }
}
