/**
 * Pyenv environments: the interpreter path of an environment, and the
 * table of environments built from the lines `pyenv versions --bare
 * --skip-aliases` prints, keyed by display name ("Pyenv: <name>"), with
 * the renaming applied when two lines end in the same component.
 *
 * `Step`, `EnvsFrom` and `BuildEnvs` follow the renaming as written, which
 * compares a line with the earlier entry's interpreter path and so can
 * lose an environment. `IntendedStep` compares it with the earlier line,
 * never reuses a name already in the table, keeps every environment, and
 * is what `PyenvEnvList` uses.
 *
 * Finding pyenv, running it and the home directory are inputs: whether
 * pyenv was found, the command's output (`None` when it failed) and the
 * home path. A line is split on the platform's separator (`\` on Windows,
 * `/` elsewhere).
 */
module Pyenv {
  import opened Wrappers
  import opened Text
  import opened Dicts
  import opened Paths

  /** An environment: its interpreter path and "Python <version>". */
  type Env = (string, string)
  type Envs = seq<(string, Env)>

  function Sep(nt: bool): char {
    if nt then '\\' else '/'
  }

  /** The last component of a path. */
  function LastComponent(path: string, sep: char): string {
    var parts := Split(path, [sep]);
    parts[|parts| - 1]
  }

  /** `get_pyenv_path`: where the interpreter of environment `name` lives. */
  function PyenvPath(name: string, home: string, nt: bool): string {
    if nt then PathJoin([home, ".pyenv", "pyenv-win", "versions", name, "python.exe"], '\\')
    else if name == "" then PathJoin([home, ".pyenv", "shims", "python"], '/')
    else PathJoin([home, ".pyenv", "versions", name, "bin", "python"], '/')
  }

  /** The interpreter's file name, the last component of every environment path. */
  function Interpreter(nt: bool): string {
    if nt then "python.exe" else "python"
  }

  /** On Windows, for a home without a trailing separator and a non-empty name ending in no separator. */
  lemma WindowsPathLayout(name: string, home: string)
    requires home != "" && home[|home| - 1] != '\\'
    requires name != "" && name[|name| - 1] != '\\'
    ensures PyenvPath(name, home, true)
      == home + "\\" + ".pyenv" + "\\" + "pyenv-win" + "\\" + "versions" + "\\" + name + "\\" + "python.exe"
  {
    var sep := '\\';
    JoinTwo(home, ".pyenv", sep);
    assert [home, ".pyenv"] + ["pyenv-win"] == [home, ".pyenv", "pyenv-win"];
    JoinMore([home, ".pyenv"], "pyenv-win", sep);
    assert [home, ".pyenv", "pyenv-win"] + ["versions"] == [home, ".pyenv", "pyenv-win", "versions"];
    JoinMore([home, ".pyenv", "pyenv-win"], "versions", sep);
    assert [home, ".pyenv", "pyenv-win", "versions"] + [name] == [home, ".pyenv", "pyenv-win", "versions", name];
    JoinMore([home, ".pyenv", "pyenv-win", "versions"], name, sep);
    var p := PathJoin([home, ".pyenv", "pyenv-win", "versions", name], sep);
    assert p[|p| - 1] == name[|name| - 1];
    assert [home, ".pyenv", "pyenv-win", "versions", name] + ["python.exe"] == [home, ".pyenv", "pyenv-win", "versions", name, "python.exe"];
    JoinMore([home, ".pyenv", "pyenv-win", "versions", name], "python.exe", sep);
  }

  /** Elsewhere, for a home without a trailing separator and a non-empty name ending in no separator. */
  lemma PosixPathLayout(name: string, home: string)
    requires home != "" && home[|home| - 1] != '/'
    requires name != "" && name[|name| - 1] != '/'
    ensures PyenvPath(name, home, false) == home + "/" + ".pyenv" + "/" + "versions" + "/" + name + "/" + "bin" + "/" + "python"
  {
    var sep := '/';
    JoinTwo(home, ".pyenv", sep);
    assert [home, ".pyenv"] + ["versions"] == [home, ".pyenv", "versions"];
    JoinMore([home, ".pyenv"], "versions", sep);
    assert [home, ".pyenv", "versions"] + [name] == [home, ".pyenv", "versions", name];
    JoinMore([home, ".pyenv", "versions"], name, sep);
    var p := PathJoin([home, ".pyenv", "versions", name], sep);
    assert p[|p| - 1] == name[|name| - 1];
    assert [home, ".pyenv", "versions", name] + ["bin"] == [home, ".pyenv", "versions", name, "bin"];
    JoinMore([home, ".pyenv", "versions", name], "bin", sep);
    assert [home, ".pyenv", "versions", name, "bin"] + ["python"] == [home, ".pyenv", "versions", name, "bin", "python"];
    JoinMore([home, ".pyenv", "versions", name, "bin"], "python", sep);
  }

  /** Elsewhere, the empty name stands for pyenv's shims. */
  lemma ShimsPathLayout(home: string)
    requires home != "" && home[|home| - 1] != '/'
    ensures PyenvPath("", home, false) == home + "/" + ".pyenv" + "/" + "shims" + "/" + "python"
  {
    var sep := '/';
    JoinTwo(home, ".pyenv", sep);
    assert [home, ".pyenv"] + ["shims"] == [home, ".pyenv", "shims"];
    JoinMore([home, ".pyenv"], "shims", sep);
    assert [home, ".pyenv", "shims"] + ["python"] == [home, ".pyenv", "shims", "python"];
    JoinMore([home, ".pyenv", "shims"], "python", sep);
  }

  /** The last component of a joined path is the last part joined, when that part has no separator. */
  lemma LastOfJoin(parts: seq<string>, sep: char)
    requires |parts| >= 1 && !Contains(parts[|parts| - 1], [sep])
    ensures LastComponent(PathJoin(parts, sep), sep) == parts[|parts| - 1]
  {
    var p := PathJoin(parts[..|parts| - 1], sep);
    var b := parts[|parts| - 1];
    if p == "" {
      assert PathJoin(parts, sep) == b;
      assert Split(b, [sep]) == [b];
    } else if p[|p| - 1] == sep {
      var p0 := p[..|p| - 1];
      assert p + b == p0 + [sep] + b;
      SplitAppend(p0, sep, b);
    } else {
      SplitAppend(p, sep, b);
    }
  }

  /** Every environment path ends in the interpreter's file name. */
  lemma PathEndsInInterpreter(name: string, home: string, nt: bool)
    ensures LastComponent(PyenvPath(name, home, nt), Sep(nt)) == Interpreter(nt)
  {
    var sep := Sep(nt);
    assert !Contains(Interpreter(nt), [sep]) by {
      forall j | 0 <= j <= |Interpreter(nt)| ensures !OccursAt(Interpreter(nt), [sep], j) {
        if j < |Interpreter(nt)| {
          assert Interpreter(nt)[j..j + 1] == [Interpreter(nt)[j]];
        }
      }
    }
    if nt {
      LastOfJoin([home, ".pyenv", "pyenv-win", "versions", name, "python.exe"], sep);
    } else if name == "" {
      LastOfJoin([home, ".pyenv", "shims", "python"], sep);
    } else {
      LastOfJoin([home, ".pyenv", "versions", name, "bin", "python"], sep);
    }
  }

  /** Python's `xs[-n:]`. */
  function Tail<T>(xs: seq<T>, n: nat): (r: seq<T>)
    ensures |r| == if n >= |xs| then |xs| else n
  {
    xs[(if n >= |xs| then 0 else |xs| - n)..]
  }

  /** Python's `xs[-n:-1]` for `n >= 1`. */
  function TailButLast<T>(xs: seq<T>, n: nat): seq<T>
    requires |xs| >= 1 && n >= 1
  {
    xs[(if n >= |xs| then 0 else |xs| - n)..|xs| - 1]
  }

  /** The `j`-th components from the end of `data` and `ant` exist and are equal. */
  predicate SharedAt(data: seq<string>, ant: seq<string>, j: int) {
    1 <= j <= |data| && j <= |ant| && data[|data| - j] == ant[|ant| - j]
  }

  /**
   * The final value of `index_folder_comun` when counting from comparison
   * `k`: one more than the trailing components `data` shares with `ant`,
   * or `IndexError` once the comparison runs past the start of `ant`.
   */
  function Common(data: seq<string>, ant: seq<string>, k: nat): (r: Result<nat, string>)
    requires 1 <= k <= |data| + 1
    ensures r.Ok? ==> k <= r.value <= |data| + 1
    ensures r.Ok? ==> forall j :: k <= j < r.value ==> SharedAt(data, ant, j)
    ensures r.Ok? && r.value <= |data| ==> r.value <= |ant| && !SharedAt(data, ant, r.value)
    ensures r.Err? ==> |ant| < |data| && forall j :: k <= j <= |ant| ==> SharedAt(data, ant, j)
    decreases |data| + 1 - k
  {
    if k > |data| then Ok(k)
    else if k > |ant| then Err("IndexError")
    else if data[|data| - k] == ant[|ant| - k] then Common(data, ant, k + 1)
    else Ok(k)
  }

  /** The display name of the environment on a line. */
  function LineName(line: string, nt: bool): string {
    var data := Split(line, [Sep(nt)]);
    "Pyenv: " + data[|data| - 1]
  }

  /** The environment on a line: the path of its last component and the version of its first. */
  function LineEnv(line: string, home: string, nt: bool): Env {
    var data := Split(line, [Sep(nt)]);
    (PyenvPath(data[|data| - 1], home, nt), "Python " + data[0])
  }

  /** One line added to the table, as the loop body of `get_list_pyenv_envs` does it. */
  function Step(envs: Envs, line: string, home: string, nt: bool): (r: Result<Envs, string>)
    requires UniqueKeys(envs)
    ensures r.Ok? ==> UniqueKeys(r.value)
  {
    var sep := Sep(nt);
    var data := Split(line, [sep]);
    var name := LineName(line, nt);
    var env := LineEnv(line, home, nt);
    var found := Get(envs, name);
    if found.Some? && found.value != env then
      var antInfo := found.value;
      var antData := Split(antInfo.0, [sep]);
      var popped := Pop(envs, name);
      var n := Common(data, antData, 1);
      if n.Err? then Err(n.error)
      else
        var renamed := Put(popped, "Pyenv: " + Join(TailButLast(antData, n.value), "/"), antInfo);
        Ok(Put(renamed, "Pyenv: " + Join(Tail(data, n.value), "/"), env))
    else Ok(Put(envs, name, env))
  }

  /** The table built from the lines, in order, or the error a line raises. */
  function EnvsFrom(lines: seq<string>, home: string, nt: bool): (r: Result<Envs, string>)
    ensures r.Ok? ==> UniqueKeys(r.value)
    decreases |lines|
  {
    if |lines| == 0 then Ok([])
    else
      var init := EnvsFrom(lines[..|lines| - 1], home, nt);
      if init.Err? then init else Step(init.value, lines[|lines| - 1], home, nt)
  }

  /** The lines of pyenv's output: none when it is blank. */
  function OutputLines(output: string): seq<string> {
    var out := Strip(output);
    if out == "" then [] else Split(out, "\n")
  }

  /** A line whose name is not in the table yet is added under its own name. */
  lemma StepFresh(envs: Envs, line: string, home: string, nt: bool)
    requires UniqueKeys(envs) && !HasKey(envs, LineName(line, nt))
    ensures Step(envs, line, home, nt) == Ok(Put(envs, LineName(line, nt), LineEnv(line, home, nt)))
  {
  }

  /** One entry per line, in order: its name and its environment. */
  function Entries(lines: seq<string>, home: string, nt: bool): (r: Envs)
    ensures |r| == |lines|
    ensures forall k :: 0 <= k < |lines| ==> r[k] == (LineName(lines[k], nt), LineEnv(lines[k], home, nt))
    decreases |lines|
  {
    if |lines| == 0 then []
    else
      var init := lines[..|lines| - 1];
      assert forall k :: 0 <= k < |init| ==> init[k] == lines[k];
      Entries(init, home, nt) + [(LineName(lines[|lines| - 1], nt), LineEnv(lines[|lines| - 1], home, nt))]
  }

  /** Lines whose names all differ each give one entry, in order: their own name and environment. */
  lemma {:induction false} DistinctNamesKept(lines: seq<string>, home: string, nt: bool)
    requires forall i, j :: 0 <= i < j < |lines| ==> LineName(lines[i], nt) != LineName(lines[j], nt)
    ensures EnvsFrom(lines, home, nt) == Ok(Entries(lines, home, nt))
    decreases |lines|
  {
    if |lines| > 0 {
      var init := lines[..|lines| - 1];
      var line := lines[|lines| - 1];
      assert forall k :: 0 <= k < |init| ==> init[k] == lines[k];
      DistinctNamesKept(init, home, nt);
      var prev := Entries(init, home, nt);
      var name := LineName(line, nt);
      assert !HasKey(prev, name) by {
        forall i | 0 <= i < |prev| ensures prev[i].0 != name {
          assert LineName(lines[i], nt) != LineName(lines[|lines| - 1], nt);
        }
      }
      StepFresh(prev, line, home, nt);
      assert Put(prev, name, LineEnv(line, home, nt)) == prev + [(name, LineEnv(line, home, nt))];
    }
  }

  /** With distinct names, each line's name looks up its own environment. */
  lemma DistinctNamesFound(lines: seq<string>, home: string, nt: bool, k: nat)
    requires forall i, j :: 0 <= i < j < |lines| ==> LineName(lines[i], nt) != LineName(lines[j], nt)
    requires k < |lines|
    ensures EnvsFrom(lines, home, nt).Ok?
    ensures Get(EnvsFrom(lines, home, nt).value, LineName(lines[k], nt)) == Some(LineEnv(lines[k], home, nt))
  {
    DistinctNamesKept(lines, home, nt);
    var r := Entries(lines, home, nt);
    assert r[k].0 == LineName(lines[k], nt);
  }

  /** A table built up to an error stays at that error however many lines follow. */
  lemma {:induction false} ErrorStays(lines: seq<string>, i: nat, home: string, nt: bool)
    requires i <= |lines| && EnvsFrom(lines[..i], home, nt).Err?
    ensures EnvsFrom(lines, home, nt) == EnvsFrom(lines[..i], home, nt)
    decreases |lines| - i
  {
    if i < |lines| {
      assert lines[..i + 1][..i] == lines[..i];
      ErrorStays(lines, i + 1, home, nt);
    } else {
      assert lines[..i] == lines;
    }
  }

  /** A line of two components without separators splits into them. */
  lemma SplitLine(a: string, y: string, c: char)
    requires !Contains(a, [c]) && !Contains(y, [c])
    ensures Split(a + [c] + y, [c]) == [a, y]
  {
    SplitAppend(a, c, y);
    assert Split(a, [c]) == [a];
  }

  /**
   * As written, a colliding line compares its components with those of the
   * earlier entry's interpreter path; when their last components differ the
   * earlier entry is re-inserted under the bare name "Pyenv: " and the new
   * one keeps the plain name.
   */
  lemma CollisionAsWritten(envs: Envs, line: string, home: string, nt: bool)
    requires UniqueKeys(envs)
    requires Get(envs, LineName(line, nt)).Some?
    requires Get(envs, LineName(line, nt)).value != LineEnv(line, home, nt)
    requires LastComponent(Get(envs, LineName(line, nt)).value.0, Sep(nt)) != LastComponent(line, Sep(nt))
    ensures var name := LineName(line, nt);
      var earlier := Get(envs, name).value;
      Step(envs, line, home, nt) == Ok(Put(Put(Pop(envs, name), "Pyenv: ", earlier), name, LineEnv(line, home, nt)))
  {
    var sep := Sep(nt);
    var name := LineName(line, nt);
    var data := Split(line, [sep]);
    var earlier := Get(envs, name).value;
    var antData := Split(earlier.0, [sep]);
    DifferentLast(data, antData);
    assert "Pyenv: " + Join(TailButLast(antData, 1), "/") == "Pyenv: ";
    assert "Pyenv: " + Join(Tail(data, 1), "/") == name;
  }

  /** Lines whose last components differ share nothing at the end. */
  lemma DifferentLast(data: seq<string>, ant: seq<string>)
    requires |data| >= 1 && |ant| >= 1 && data[|data| - 1] != ant[|ant| - 1]
    ensures Common(data, ant, 1) == Ok(1)
    ensures Join(TailButLast(ant, 1), "/") == ""
    ensures Join(Tail(data, 1), "/") == data[|data| - 1]
  {
    assert !SharedAt(data, ant, 1);
    assert TailButLast(ant, 1) == [];
    assert Tail(data, 1) == [data[|data| - 1]];
  }

  /** The name and environment of a line `a/y`. */
  lemma LineParts(a: string, y: string, home: string, nt: bool)
    requires !Contains(a, [Sep(nt)]) && !Contains(y, [Sep(nt)])
    ensures LineName(a + [Sep(nt)] + y, nt) == "Pyenv: " + y
    ensures LineEnv(a + [Sep(nt)] + y, home, nt) == (PyenvPath(y, home, nt), "Python " + a)
    ensures LastComponent(a + [Sep(nt)] + y, Sep(nt)) == y
  {
    SplitLine(a, y, Sep(nt));
  }

  /** The insertions and removals the counterexample performs. */
  lemma PutFirst(k: string, v: Env)
    ensures Put([], k, v) == [(k, v)]
  {
  }

  lemma PutSecond(k1: string, k2: string, v1: Env, v2: Env)
    requires k1 != k2
    ensures Put([(k1, v1)], k2, v2) == [(k1, v1), (k2, v2)]
  {
    assert IndexOf([(k1, v1)], k2) == -1;
  }

  lemma PutOver(k: string, v1: Env, v2: Env)
    ensures Put([(k, v1)], k, v2) == [(k, v2)]
  {
    assert IndexOf([(k, v1)], k) == 0;
  }

  lemma PopOnly(k: string, v: Env)
    ensures Pop([(k, v)], k) == []
  {
    assert IndexOf([(k, v)], k) == 0;
  }

  lemma PopSecond(k1: string, k2: string, v1: Env, v2: Env)
    requires k1 != k2
    ensures Pop([(k1, v1), (k2, v2)], k2) == [(k1, v1)]
  {
    assert IndexFrom([(k1, v1), (k2, v2)], k2, 1) == 1;
    assert IndexOf([(k1, v1), (k2, v2)], k2) == 1;
  }

  /**
   * `line` collides with an earlier environment under `name`: same name,
   * another environment, and a path whose last component is not the line's.
   */
  predicate Collides(earlier: Env, line: string, name: string, home: string, nt: bool) {
    LineName(line, nt) == name && earlier != LineEnv(line, home, nt)
    && LastComponent(earlier.0, Sep(nt)) != LastComponent(line, Sep(nt))
  }

  /** The second line of the counterexample: the first environment moves to "Pyenv: ". */
  lemma SecondLine(name: string, v1: Env, line: string, home: string, nt: bool)
    requires name != "Pyenv: " && Collides(v1, line, name, home, nt)
    ensures Step([(name, v1)], line, home, nt) == Ok([("Pyenv: ", v1), (name, LineEnv(line, home, nt))])
  {
    assert Get([(name, v1)], name) == Some(v1);
    CollisionAsWritten([(name, v1)], line, home, nt);
    PopOnly(name, v1);
    PutFirst("Pyenv: ", v1);
    PutSecond("Pyenv: ", name, v1, LineEnv(line, home, nt));
  }

  /** The third line: the second environment moves to "Pyenv: ", over the first. */
  lemma ThirdLine(name: string, v1: Env, v2: Env, line: string, home: string, nt: bool)
    requires name != "Pyenv: " && Collides(v2, line, name, home, nt)
    ensures Step([("Pyenv: ", v1), (name, v2)], line, home, nt) == Ok([("Pyenv: ", v2), (name, LineEnv(line, home, nt))])
  {
    assert IndexFrom([("Pyenv: ", v1), (name, v2)], name, 1) == 1;
    assert Get([("Pyenv: ", v1), (name, v2)], name) == Some(v2);
    CollisionAsWritten([("Pyenv: ", v1), (name, v2)], line, home, nt);
    PopSecond("Pyenv: ", name, v1, v2);
    PutOver("Pyenv: ", v1, v2);
    PutSecond("Pyenv: ", name, v2, LineEnv(line, home, nt));
  }

  /** "Python " followed by different versions gives different texts. */
  lemma VersionsDiffer(a: string, b: string)
    requires a != b
    ensures "Python " + a != "Python " + b
  {
    assert ("Python " + a)[7..] == a && ("Python " + b)[7..] == b;
  }

  /** Line `b/y` collides with the environment of line `a/y`. */
  lemma LinesCollide(a: string, b: string, y: string, home: string, nt: bool)
    requires !Contains(a, [Sep(nt)]) && !Contains(b, [Sep(nt)]) && !Contains(y, [Sep(nt)])
    requires a != b && y != Interpreter(nt)
    ensures Collides(LineEnv(a + [Sep(nt)] + y, home, nt), b + [Sep(nt)] + y, "Pyenv: " + y, home, nt)
  {
    LineParts(a, y, home, nt);
    LineParts(b, y, home, nt);
    VersionsDiffer(a, b);
    PathEndsInInterpreter(y, home, nt);
  }

  /**
   * As written, two such lines leave the first environment under the bare
   * name "Pyenv: ", and the third line then overwrites it: the first
   * environment is lost.
   */
  lemma AsWrittenLosesValue(a: string, b: string, c: string, y: string, home: string, nt: bool)
    requires !Contains(a, [Sep(nt)]) && !Contains(b, [Sep(nt)]) && !Contains(c, [Sep(nt)]) && !Contains(y, [Sep(nt)])
    requires a != b && b != c && a != c
    requires y != "" && y != Interpreter(nt)
    ensures var l1, l2, l3 := a + [Sep(nt)] + y, b + [Sep(nt)] + y, c + [Sep(nt)] + y;
      var v1, v2, v3 := LineEnv(l1, home, nt), LineEnv(l2, home, nt), LineEnv(l3, home, nt);
      EnvsFrom([l1, l2], home, nt) == Ok([("Pyenv: ", v1), ("Pyenv: " + y, v2)])
      && EnvsFrom([l1, l2, l3], home, nt) == Ok([("Pyenv: ", v2), ("Pyenv: " + y, v3)])
      && v1 != v2 && v1 != v3
  {
    var l1, l2, l3 := a + [Sep(nt)] + y, b + [Sep(nt)] + y, c + [Sep(nt)] + y;
    var name := "Pyenv: " + y;
    assert |"Pyenv: "| < |name|;
    LineParts(a, y, home, nt);
    LineParts(c, y, home, nt);
    LinesCollide(a, b, y, home, nt);
    LinesCollide(b, c, y, home, nt);
    VersionsDiffer(a, c);
    TwoCollisions(l1, l2, name, home, nt);
    ThreeCollisions(l1, l2, l3, name, home, nt);
  }

  /**
   * Three lines with one name, each colliding with the environment of the
   * one before: the table after the third.
   */
  lemma ThreeCollisions(l1: string, l2: string, l3: string, name: string, home: string, nt: bool)
    requires LineName(l1, nt) == name && name != "Pyenv: "
    requires Collides(LineEnv(l1, home, nt), l2, name, home, nt) && Collides(LineEnv(l2, home, nt), l3, name, home, nt)
    ensures EnvsFrom([l1, l2, l3], home, nt) == Ok([("Pyenv: ", LineEnv(l2, home, nt)), (name, LineEnv(l3, home, nt))])
  {
    var t2 := [("Pyenv: ", LineEnv(l1, home, nt)), (name, LineEnv(l2, home, nt))];
    assert EnvsFrom([l1, l2], home, nt) == Ok(t2) by {
      TwoCollisions(l1, l2, name, home, nt);
    }
    assert Step(t2, l3, home, nt) == Ok([("Pyenv: ", LineEnv(l2, home, nt)), (name, LineEnv(l3, home, nt))]) by {
      ThirdLine(name, LineEnv(l1, home, nt), LineEnv(l2, home, nt), l3, home, nt);
    }
    assert [l1, l2, l3][..2] == [l1, l2];
  }

  /** The first two lines of `ThreeCollisions`. */
  lemma TwoCollisions(l1: string, l2: string, name: string, home: string, nt: bool)
    requires LineName(l1, nt) == name && name != "Pyenv: "
    requires Collides(LineEnv(l1, home, nt), l2, name, home, nt)
    ensures EnvsFrom([l1, l2], home, nt) == Ok([("Pyenv: ", LineEnv(l1, home, nt)), (name, LineEnv(l2, home, nt))])
  {
    FirstLine(l1, home, nt);
    assert [l1, l2][..1] == [l1];
    SecondLine(name, LineEnv(l1, home, nt), l2, home, nt);
  }

  /** The first line of a table gets its own name. */
  lemma FirstLine(l1: string, home: string, nt: bool)
    ensures EnvsFrom([l1], home, nt) == Ok([(LineName(l1, nt), LineEnv(l1, home, nt))])
  {
    assert [l1][..0] == [];
    PutFirst(LineName(l1, nt), LineEnv(l1, home, nt));
    StepFresh([], l1, home, nt);
  }

  /** The trailing components two lines share, counted without running past either. */
  function CommonWithin(data: seq<string>, ant: seq<string>, k: nat): (r: nat)
    requires 1 <= k
    ensures k <= r
    ensures forall j :: k <= j < r ==> SharedAt(data, ant, j)
    ensures r <= |data| && r <= |ant| ==> !SharedAt(data, ant, r)
    ensures r > |data| || r > |ant| ==> r == k || r == (if |data| < |ant| then |data| else |ant|) + 1
    decreases |data| + 1 - k
  {
    if k > |data| || k > |ant| then k
    else if data[|data| - k] == ant[|ant| - k] then CommonWithin(data, ant, k + 1)
    else k
  }

  /** The name a line gets from its last `n` components. */
  function SuffixName(data: seq<string>, n: nat): string {
    "Pyenv: " + Join(Tail(data, n), "/")
  }

  /** `origins` records a line for every name of the table, and for no other name. */
  ghost predicate SameKeys(envs: Envs, origins: seq<(string, seq<string>)>) {
    forall key :: HasKey(envs, key) <==> HasKey(origins, key)
  }

  /** The larger of two counts. */
  function Longer(a: nat, b: nat): nat {
    if a < b then b else a
  }

  /** A length no name of `names` exceeds. */
  function Longest(names: seq<string>): (r: nat)
    ensures forall i :: 0 <= i < |names| ==> |names[i]| <= r
    decreases |names|
  {
    if |names| == 0 then 0
    else
      var init := names[..|names| - 1];
      assert forall i :: 0 <= i < |init| ==> init[i] == names[i];
      var m := Longest(init);
      if |names[|names| - 1]| > m then |names[|names| - 1]| else m
  }

  /** `base`, or, when that name is taken, `base` with as many primes appended as make it free. */
  function Unused(taken: seq<string>, base: string): (r: string)
    ensures r !in taken
    ensures base !in taken ==> r == base
    decreases Longest(taken) + 1 - |base|
  {
    if base !in taken then base
    else
      var i :| 0 <= i < |taken| && taken[i] == base;
      Unused(taken, base + "'")
  }

  /**
   * From `n` trailing components on, the first count that names both lines
   * with names not in `taken`, stopping at the length of the longer line.
   */
  function FreeLength(taken: seq<string>, data: seq<string>, ant: seq<string>, n: nat): (r: nat)
    ensures n <= r
    ensures r < Longer(|data|, |ant|) ==> SuffixName(ant, r) !in taken && SuffixName(data, r) !in taken
    ensures forall j :: n <= j < r ==> SuffixName(ant, j) in taken || SuffixName(data, j) in taken
    decreases Longer(|data|, |ant|) - n
  {
    if n >= Longer(|data|, |ant|) || (SuffixName(ant, n) !in taken && SuffixName(data, n) !in taken) then n
    else FreeLength(taken, data, ant, n + 1)
  }

  /**
   * The names a collision gives the earlier entry (components `ant`) and
   * the new one (components `data`): their trailing components up to the
   * first in which they differ, lengthened while either name is taken, and
   * marked with primes only if even the whole lines are taken. Both are
   * free and they differ.
   */
  function CollisionNames(taken: seq<string>, data: seq<string>, ant: seq<string>): (r: (string, string))
    ensures r.0 !in taken && r.1 !in taken && r.0 != r.1
  {
    var m := FreeLength(taken, data, ant, CommonWithin(data, ant, 1));
    var antName := Unused(taken, SuffixName(ant, m));
    (antName, Unused(taken + [antName], SuffixName(data, m)))
  }

  /**
   * The renaming evidently intended: on a collision, the earlier entry and
   * the new one are both named by their trailing components up to the
   * first one in which their lines differ, and no name already in the
   * table is reused. `origins` records, for every name, the components of
   * the line that produced it.
   */
  function IntendedStep(envs: Envs, origins: seq<(string, seq<string>)>, line: string, home: string, nt: bool)
    : (r: (Envs, seq<(string, seq<string>)>))
    requires UniqueKeys(envs) && UniqueKeys(origins) && SameKeys(envs, origins)
    ensures UniqueKeys(r.0) && UniqueKeys(r.1) && SameKeys(r.0, r.1)
  {
    var data := Split(line, [Sep(nt)]);
    var name := LineName(line, nt);
    var env := LineEnv(line, home, nt);
    var found := Get(envs, name);
    if found.Some? && found.value != env then
      assert HasKey(origins, name);
      var ant := Get(origins, name).value;
      var popped := Pop(envs, name);
      var names := CollisionNames(Keys(popped), data, ant);
      PopKeys(envs, name);
      PopKeys(origins, name);
      PutKeys(popped, names.0, found.value);
      PutKeys(Pop(origins, name), names.0, ant);
      PutKeys(Put(popped, names.0, found.value), names.1, env);
      PutKeys(Put(Pop(origins, name), names.0, ant), names.1, data);
      (Put(Put(popped, names.0, found.value), names.1, env),
       Put(Put(Pop(origins, name), names.0, ant), names.1, data))
    else
      PutKeys(envs, name, env);
      PutKeys(origins, name, data);
      (Put(envs, name, env), Put(origins, name, data))
  }

  /** The trailing parts two different lines keep, from their first difference on, are different. */
  lemma TailsDiffer(data: seq<string>, ant: seq<string>, m: nat)
    requires |data| >= 1 && |ant| >= 1 && CommonWithin(data, ant, 1) <= m
    ensures Tail(data, m) == Tail(ant, m) ==> data == ant
  {
    var n := CommonWithin(data, ant, 1);
    if n <= |data| && n <= |ant| {
      TailsDifferAt(data, ant, m, n);
    } else if |data| != |ant| {
      assert |Tail(data, m)| != |Tail(ant, m)|;
    } else {
      forall i | 0 <= i < |data| ensures data[i] == ant[i] {
        assert SharedAt(data, ant, |data| - i);
      }
    }
  }

  /** Tails that both reach a position where the lines differ are different. */
  lemma TailsDifferAt(data: seq<string>, ant: seq<string>, m: nat, n: nat)
    requires 1 <= n <= m && n <= |data| && n <= |ant| && data[|data| - n] != ant[|ant| - n]
    ensures Tail(data, m) != Tail(ant, m)
  {
    var t, u := Tail(data, m), Tail(ant, m);
    if |t| == |u| {
      assert t[|t| - n] == data[|data| - n];
      assert u[|u| - n] == ant[|ant| - n];
    }
  }

  /** Names made of components without "/" are different when the components are. */
  lemma SuffixNamesDiffer(xs: seq<string>, ys: seq<string>)
    requires |xs| >= 1 && |ys| >= 1 && xs != ys
    requires forall k :: 0 <= k < |xs| ==> !Contains(xs[k], "/")
    requires forall k :: 0 <= k < |ys| ==> !Contains(ys[k], "/")
    ensures "Pyenv: " + Join(xs, "/") != "Pyenv: " + Join(ys, "/")
  {
    forall k | 0 <= k < |xs| ensures Separable(xs[k], "/") { SingleSeparable(xs[k], '/'); }
    forall k | 0 <= k < |ys| ensures Separable(ys[k], "/") { SingleSeparable(ys[k], '/'); }
    SplitJoin(xs, "/");
    SplitJoin(ys, "/");
    var p := "Pyenv: ";
    assert (p + Join(xs, "/"))[|p|..] == Join(xs, "/");
    assert (p + Join(ys, "/"))[|p|..] == Join(ys, "/");
  }

  /** The trailing components of a line without "/" have none either. */
  lemma SuffixPiecesFree(xs: seq<string>, n: nat)
    requires forall k :: 0 <= k < |xs| ==> !Contains(xs[k], "/")
    ensures forall k :: 0 <= k < |Tail(xs, n)| ==> !Contains(Tail(xs, n)[k], "/")
  {
    forall k | 0 <= k < |Tail(xs, n)| ensures !Contains(Tail(xs, n)[k], "/") {
      assert Tail(xs, n)[k] == xs[k + |xs| - |Tail(xs, n)|];
    }
  }

  /**
   * For two different lines whose components hold no "/", the names at
   * their first difference are the ones a collision uses whenever both
   * are free.
   */
  lemma IntendedCollisionNames(taken: seq<string>, data: seq<string>, ant: seq<string>)
    requires |data| >= 1 && |ant| >= 1 && data != ant
    requires forall k :: 0 <= k < |data| ==> !Contains(data[k], "/")
    requires forall k :: 0 <= k < |ant| ==> !Contains(ant[k], "/")
    requires var n := CommonWithin(data, ant, 1);
      SuffixName(ant, n) !in taken && SuffixName(data, n) !in taken
    ensures var n := CommonWithin(data, ant, 1);
      CollisionNames(taken, data, ant) == (SuffixName(ant, n), SuffixName(data, n))
  {
    var n := CommonWithin(data, ant, 1);
    assert FreeLength(taken, data, ant, n) == n;
    assert SuffixName(ant, n) != SuffixName(data, n) by {
      TailsDiffer(data, ant, n);
      SuffixPiecesFree(ant, n);
      SuffixPiecesFree(data, n);
      SuffixNamesDiffer(Tail(ant, n), Tail(data, n));
    }
    assert SuffixName(data, n) !in taken + [SuffixName(ant, n)];
  }

  /** A name is a key of a table exactly when it is among the table's keys. */
  lemma KeysHas(envs: Envs, key: string)
    ensures key in Keys(envs) <==> HasKey(envs, key)
  {
    if HasKey(envs, key) {
      var i :| 0 <= i < |envs| && envs[i].0 == key;
      assert Keys(envs)[i] == key;
    }
  }

  /**
   * With the intended renaming, a collision keeps both environments: the
   * earlier one under the first name `CollisionNames` gives and the new one
   * under the second. Every other entry keeps its name and value, and the
   * table has no other names.
   */
  lemma IntendedCollisionKeepsBoth(envs: Envs, origins: seq<(string, seq<string>)>, line: string, home: string, nt: bool)
    requires UniqueKeys(envs) && UniqueKeys(origins) && SameKeys(envs, origins)
    requires Get(envs, LineName(line, nt)).Some?
    requires Get(envs, LineName(line, nt)).value != LineEnv(line, home, nt)
    ensures var name := LineName(line, nt);
      var names := CollisionNames(Keys(Pop(envs, name)), Split(line, [Sep(nt)]), Get(origins, name).value);
      var r := IntendedStep(envs, origins, line, home, nt).0;
      names.0 != names.1
      && Get(r, names.0) == Get(envs, name)
      && Get(r, names.1) == Some(LineEnv(line, home, nt))
      && (forall key :: key != name && HasKey(envs, key) ==> Get(r, key) == Get(envs, key))
      && (forall key :: HasKey(r, key) <==> (key != name && HasKey(envs, key)) || key == names.0 || key == names.1)
  {
    var name := LineName(line, nt);
    var env := LineEnv(line, home, nt);
    assert HasKey(envs, name);
    var earlier := Get(envs, name).value;
    var popped := Pop(envs, name);
    var names := CollisionNames(Keys(popped), Split(line, [Sep(nt)]), Get(origins, name).value);
    var moved := Put(popped, names.0, earlier);
    var r := Put(moved, names.1, env);
    assert IntendedStep(envs, origins, line, home, nt).0 == r;
    KeysHas(popped, names.0);
    KeysHas(popped, names.1);
    PopKeys(envs, name);
    PutKeys(popped, names.0, earlier);
    PutKeys(moved, names.1, env);
    assert Get(r, names.0) == Get(moved, names.0);
    forall key | key != name && HasKey(envs, key) ensures Get(r, key) == Get(envs, key) {
      KeysHas(popped, key);
      assert HasKey(popped, key);
      assert key != names.0 && key != names.1;
    }
  }

  /** The environment `v` is the value of some name of the table. */
  ghost predicate Listed(envs: Envs, v: Env) {
    exists key :: Get(envs, key) == Some(v)
  }

  /** An intended step keeps every environment of the table and adds the line's own. */
  lemma IntendedStepKeeps(envs: Envs, origins: seq<(string, seq<string>)>, line: string, home: string, nt: bool)
    requires UniqueKeys(envs) && UniqueKeys(origins) && SameKeys(envs, origins)
    ensures var r := IntendedStep(envs, origins, line, home, nt).0;
      Listed(r, LineEnv(line, home, nt)) && forall v :: Listed(envs, v) ==> Listed(r, v)
  {
    var name := LineName(line, nt);
    var env := LineEnv(line, home, nt);
    var found := Get(envs, name);
    var r := IntendedStep(envs, origins, line, home, nt).0;
    if found.Some? && found.value != env {
      IntendedCollisionKeepsBoth(envs, origins, line, home, nt);
      var names := CollisionNames(Keys(Pop(envs, name)), Split(line, [Sep(nt)]), Get(origins, name).value);
      assert Get(r, names.1) == Some(env);
      forall v | Listed(envs, v) ensures Listed(r, v) {
        var key :| Get(envs, key) == Some(v);
        if key == name {
          assert Get(r, names.0) == Some(v);
        } else {
          assert HasKey(envs, key);
          assert Get(r, key) == Some(v);
        }
      }
    } else {
      assert Get(r, name) == Some(env);
      forall v | Listed(envs, v) ensures Listed(r, v) {
        var key :| Get(envs, key) == Some(v);
        if key == name {
          assert Get(r, name) == Some(v);
        } else {
          assert Get(r, key) == Some(v);
        }
      }
    }
  }

  /**
   * The table the intended renaming builds from the lines, in order, with
   * the components of the line behind each name. Unlike the code as
   * written, no line can make it fail.
   */
  function IntendedEnvsFrom(lines: seq<string>, home: string, nt: bool): (r: (Envs, seq<(string, seq<string>)>))
    ensures UniqueKeys(r.0) && UniqueKeys(r.1) && SameKeys(r.0, r.1)
    decreases |lines|
  {
    if |lines| == 0 then ([], [])
    else
      var init := IntendedEnvsFrom(lines[..|lines| - 1], home, nt);
      IntendedStep(init.0, init.1, lines[|lines| - 1], home, nt)
  }

  /** One more line is one more intended step. */
  lemma IntendedEnvsFromStep(lines: seq<string>, i: nat, home: string, nt: bool)
    requires i < |lines|
    ensures var prev := IntendedEnvsFrom(lines[..i], home, nt);
      IntendedEnvsFrom(lines[..i + 1], home, nt) == IntendedStep(prev.0, prev.1, lines[i], home, nt)
  {
    assert lines[..i + 1][..i] == lines[..i];
  }

  /** With the intended renaming, the environment of every line is in the table: none is lost. */
  lemma {:induction false} IntendedKeepsEveryLine(lines: seq<string>, home: string, nt: bool)
    ensures forall k :: 0 <= k < |lines| ==> Listed(IntendedEnvsFrom(lines, home, nt).0, LineEnv(lines[k], home, nt))
    decreases |lines|
  {
    if |lines| > 0 {
      var init := lines[..|lines| - 1];
      IntendedKeepsEveryLine(init, home, nt);
      var prev := IntendedEnvsFrom(init, home, nt);
      var r := IntendedEnvsFrom(lines, home, nt).0;
      assert r == IntendedStep(prev.0, prev.1, lines[|lines| - 1], home, nt).0;
      IntendedStepKeeps(prev.0, prev.1, lines[|lines| - 1], home, nt);
      forall k | 0 <= k < |lines| ensures Listed(r, LineEnv(lines[k], home, nt)) {
        var v := LineEnv(lines[k], home, nt);
        if k < |init| {
          assert init[k] == lines[k];
          assert Listed(prev.0, v);
        } else {
          assert k == |lines| - 1;
        }
        assert Listed(r, v);
      }
    }
  }

  /** With the intended renaming too, lines whose names all differ each give their own entry, in order. */
  lemma {:induction false} IntendedDistinctNamesKept(lines: seq<string>, home: string, nt: bool)
    requires forall i, j :: 0 <= i < j < |lines| ==> LineName(lines[i], nt) != LineName(lines[j], nt)
    ensures IntendedEnvsFrom(lines, home, nt).0 == Entries(lines, home, nt)
    decreases |lines|
  {
    if |lines| > 0 {
      var init := lines[..|lines| - 1];
      var line := lines[|lines| - 1];
      assert forall k :: 0 <= k < |init| ==> init[k] == lines[k];
      IntendedDistinctNamesKept(init, home, nt);
      var prev := Entries(init, home, nt);
      var name := LineName(line, nt);
      assert !HasKey(prev, name) by {
        forall i | 0 <= i < |prev| ensures prev[i].0 != name {
          assert LineName(lines[i], nt) != LineName(lines[|lines| - 1], nt);
        }
      }
      assert Get(prev, name).None?;
      assert Put(prev, name, LineEnv(line, home, nt)) == prev + [(name, LineEnv(line, home, nt))];
    }
  }

  /** The environments found on this machine, and the cache of the last listing. */
  class PyenvEnvList {
    var cache: Envs

    constructor()
      ensures cache == []
    {
      cache := [];
    }

    /**
     * `get_list_pyenv_envs`, with the collision renaming corrected: no
     * table when pyenv is missing or its command fails; otherwise the table
     * built from the output's lines, which also becomes the cache.
     */
    method GetListPyenvEnvs(pyenvFound: bool, output: Option<string>, home: string, nt: bool)
      returns (r: Envs)
      modifies this`cache
      ensures !pyenvFound || output.None? ==> r == [] && cache == old(cache)
      ensures pyenvFound && output.Some? ==> r == IntendedEnvsFrom(OutputLines(output.value), home, nt).0 && cache == r
      ensures pyenvFound && output.Some? ==> var lines := OutputLines(output.value);
        forall k :: 0 <= k < |lines| ==> Listed(r, LineEnv(lines[k], home, nt))
    {
      if !pyenvFound || output.None? {
        return [];
      }
      r := BuildIntendedEnvs(OutputLines(output.value), home, nt);
      IntendedKeepsEveryLine(OutputLines(output.value), home, nt);
      cache := r;
    }

    /** `get_list_pyenv_envs_cache`. */
    method GetListPyenvEnvsCache() returns (r: Envs)
      ensures r == cache
    {
      return cache;
    }
  }

  /** The loop of `get_list_pyenv_envs` over the output's lines, with the intended renaming. */
  method BuildIntendedEnvs(lines: seq<string>, home: string, nt: bool) returns (r: Envs)
    ensures r == IntendedEnvsFrom(lines, home, nt).0
  {
    var envList: Envs := [];
    var origins: seq<(string, seq<string>)> := [];
    var i := 0;
    while i < |lines|
      invariant 0 <= i <= |lines|
      invariant IntendedEnvsFrom(lines[..i], home, nt) == (envList, origins)
    {
      IntendedEnvsFromStep(lines, i, home, nt);
      var next := IntendedStep(envList, origins, lines[i], home, nt);
      envList, origins := next.0, next.1;
      i := i + 1;
    }
    assert lines[..i] == lines;
    return envList;
  }

  /** The loop of `get_list_pyenv_envs` over the output's lines, as written. */
  method BuildEnvs(lines: seq<string>, home: string, nt: bool) returns (r: Result<Envs, string>)
    ensures r == EnvsFrom(lines, home, nt)
  {
    var envList: Envs := [];
    var i := 0;
    while i < |lines|
      invariant 0 <= i <= |lines|
      invariant EnvsFrom(lines[..i], home, nt) == Ok(envList)
    {
      assert lines[..i + 1][..i] == lines[..i];
      var added := AddLine(envList, lines[i], home, nt);
      if added.Err? {
        ErrorStays(lines, i + 1, home, nt);
        return added;
      }
      envList := added.value;
      i := i + 1;
    }
    assert lines[..i] == lines;
    return Ok(envList);
  }

  /** The body of the loop of `get_list_pyenv_envs`: one line added to the table. */
  method AddLine(envs: Envs, line: string, home: string, nt: bool) returns (r: Result<Envs, string>)
    requires UniqueKeys(envs)
    ensures r == Step(envs, line, home, nt)
  {
    var data := Split(line, [Sep(nt)]);
    var path := PyenvPath(data[|data| - 1], home, nt);
    var name := "Pyenv: " + data[|data| - 1];
    var version := "Python " + data[0];
    assert LineName(line, nt) == name && LineEnv(line, home, nt) == (path, version);
    var envList := envs;
    var found := Get(envList, name);
    if found.Some? && found.value != (path, version) {
      var antInfo := found.value;
      var antData := Split(antInfo.0, [Sep(nt)]);
      envList := Pop(envList, name);
      var index := CountCommon(data, antData);
      if index.Err? {
        return Err(index.error);
      }
      envList := Put(envList, "Pyenv: " + Join(TailButLast(antData, index.value), "/"), antInfo);
      name := "Pyenv: " + Join(Tail(data, index.value), "/");
    }
    envList := Put(envList, name, (path, version));
    return Ok(envList);
  }

  /** The loop counting `index_folder_comun`, comparing components from the end. */
  method CountCommon(data: seq<string>, ant: seq<string>) returns (r: Result<nat, string>)
    requires |data| >= 1
    ensures r == Common(data, ant, 1)
  {
    var index := 1;
    while index <= |data|
      invariant 1 <= index <= |data| + 1
      invariant Common(data, ant, 1) == Common(data, ant, index)
    {
      if index > |ant| {
        return Err("IndexError");
      }
      if data[|data| - index] == ant[|ant| - index] {
        index := index + 1;
      } else {
        break;
      }
    }
    return Ok(index);
  }
}
