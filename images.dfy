/**
 * The image path registry: a table from image name (a file name without
 * its extension) to the path of the file, filled from a directory walk.
 * A file in a directory named `svg` takes priority over any other file of
 * the same name.
 *
 * The directory walk is an input: whether the path is a directory, and
 * the walk's `(dirpath, filenames)` pairs in order. Paths use `/`.
 */
module Images {
  import opened Wrappers
  import opened Text
  import opened Dicts
  import opened Paths
  import opened Seqs

  type Table = seq<(string, string)>
  /** One directory of the walk: its path and the names of its files. */
  type WalkDir = (string, seq<string>)

  const SEP: char := '/'
  /** The name looked up when an image is missing. */
  const DEFAULT: string := "not_found"

  predicate IsHidden(filename: string) {
    StartsWith(filename, ".")
  }

  /** The table key of a file: its base name without extension. */
  function ImageName(filename: string): string {
    Stem(Basename(filename, SEP), SEP)
  }

  /** A file that is not hidden and whose image name is `k`. */
  predicate Yields(filename: string, k: string) {
    !IsHidden(filename) && ImageName(filename) == k
  }

  function CompletePath(dirpath: string, filename: string): string {
    PathJoin([dirpath, filename], SEP)
  }

  /** The file at `path` is in a directory named `svg`. */
  predicate InSvgDir(path: string) {
    Basename(Dirname(path, SEP), SEP) == "svg"
  }

  /** One file of the walk added to the table, as the inner loop of `add_image_path` does it. */
  function AddFile(t: Table, dirpath: string, filename: string): (r: Table)
    requires UniqueKeys(t)
    ensures UniqueKeys(r)
  {
    if IsHidden(filename) then t
    else
      var name := ImageName(filename);
      var path := CompletePath(dirpath, filename);
      if !HasKey(t, name) then Put(t, name, path)
      else if Basename(dirpath, SEP) == "svg" then Put(t, name, path)
      else if InSvgDir(Get(t, name).value) then t
      else Put(t, name, path)
  }

  /** The files of one directory added in order. */
  function AddFiles(t: Table, dirpath: string, filenames: seq<string>): (r: Table)
    requires UniqueKeys(t)
    ensures UniqueKeys(r)
    decreases |filenames|
  {
    if |filenames| == 0 then t
    else AddFile(AddFiles(t, dirpath, filenames[..|filenames| - 1]), dirpath, filenames[|filenames| - 1])
  }

  /** The directories of the walk added in order. */
  function AddWalk(t: Table, walk: seq<WalkDir>): (r: Table)
    requires UniqueKeys(t)
    ensures UniqueKeys(r)
    decreases |walk|
  {
    if |walk| == 0 then t
    else
      var (dirpath, filenames) := walk[|walk| - 1];
      AddFiles(AddWalk(t, walk[..|walk| - 1]), dirpath, filenames)
  }

  /**
   * What one file does to the table: a hidden file nothing; a new name is
   * added with the file's path; a file from an `svg` directory replaces the
   * entry; an entry from an `svg` directory is kept; otherwise the later
   * file wins. No other name changes.
   */
  lemma AddFileEffect(t: Table, dirpath: string, filename: string)
    requires UniqueKeys(t)
    ensures var r, name, path := AddFile(t, dirpath, filename), ImageName(filename), CompletePath(dirpath, filename);
      (forall k :: k != name ==> Get(r, k) == Get(t, k))
      && (IsHidden(filename) ==> r == t)
      && (!IsHidden(filename) && !HasKey(t, name) ==> Get(r, name) == Some(path) && Keys(r) == Keys(t) + [name])
      && (!IsHidden(filename) && HasKey(t, name) ==> Keys(r) == Keys(t))
      && (!IsHidden(filename) && HasKey(t, name) && Basename(dirpath, SEP) == "svg" ==> Get(r, name) == Some(path))
      && (!IsHidden(filename) && HasKey(t, name) && Basename(dirpath, SEP) != "svg" && InSvgDir(Get(t, name).value) ==> r == t)
      && (!IsHidden(filename) && HasKey(t, name) && Basename(dirpath, SEP) != "svg" && !InSvgDir(Get(t, name).value)
          ==> Get(r, name) == Some(path))
  {
  }

  /** A file adds its image name, unless it is hidden, and removes none. */
  lemma AddFileKeys(t: Table, dirpath: string, filename: string, k: string)
    requires UniqueKeys(t)
    ensures HasKey(AddFile(t, dirpath, filename), k) <==> HasKey(t, k) || Yields(filename, k)
  {
    var r := AddFile(t, dirpath, filename);
    if !IsHidden(filename) {
      var name := ImageName(filename);
      if k == name {
        assert Get(r, k).Some?;
      } else {
        assert Get(r, k) == Get(t, k);
      }
    }
  }

  /** The file names of the walk: none contains the separator, as a directory listing gives them. */
  predicate PlainNames(walk: seq<WalkDir>) {
    forall i, j :: 0 <= i < |walk| && 0 <= j < |walk[i].1| ==> !Contains(walk[i].1[j], [SEP])
  }

  /** A file of an `svg` directory is in an `svg` directory once its path is joined. */
  lemma SvgPath(dirpath: string, filename: string)
    requires Basename(dirpath, SEP) == "svg" && !Contains(filename, [SEP])
    ensures InSvgDir(CompletePath(dirpath, filename))
  {
    NamedEnds(dirpath, SEP);
    JoinApart(dirpath, filename, SEP);
  }

  /** An entry from an `svg` directory stays one from an `svg` directory when a file is added. */
  lemma SvgStaysFile(t: Table, dirpath: string, filename: string, k: string)
    requires UniqueKeys(t) && !Contains(filename, [SEP])
    requires HasKey(t, k) && InSvgDir(Get(t, k).value)
    ensures HasKey(AddFile(t, dirpath, filename), k) && InSvgDir(Get(AddFile(t, dirpath, filename), k).value)
  {
    AddFileEffect(t, dirpath, filename);
    if !IsHidden(filename) && k == ImageName(filename) && Basename(dirpath, SEP) == "svg" {
      SvgPath(dirpath, filename);
    }
  }

  /** The same for the files of one directory. */
  lemma {:induction false} SvgStaysFiles(t: Table, dirpath: string, filenames: seq<string>, k: string)
    requires UniqueKeys(t) && forall j :: 0 <= j < |filenames| ==> !Contains(filenames[j], [SEP])
    requires HasKey(t, k) && InSvgDir(Get(t, k).value)
    ensures HasKey(AddFiles(t, dirpath, filenames), k) && InSvgDir(Get(AddFiles(t, dirpath, filenames), k).value)
    decreases |filenames|
  {
    if |filenames| > 0 {
      var init := filenames[..|filenames| - 1];
      assert forall j :: 0 <= j < |init| ==> init[j] == filenames[j];
      SvgStaysFiles(t, dirpath, init, k);
      SvgStaysFile(AddFiles(t, dirpath, init), dirpath, filenames[|filenames| - 1], k);
    }
  }

  /** Once a name is taken by a file from an `svg` directory, the walk never gives it a file from elsewhere. */
  lemma {:induction false} SvgStays(t: Table, walk: seq<WalkDir>, k: string)
    requires UniqueKeys(t) && PlainNames(walk)
    requires HasKey(t, k) && InSvgDir(Get(t, k).value)
    ensures HasKey(AddWalk(t, walk), k) && InSvgDir(Get(AddWalk(t, walk), k).value)
    decreases |walk|
  {
    if |walk| > 0 {
      var init := walk[..|walk| - 1];
      assert forall i :: 0 <= i < |init| ==> init[i] == walk[i];
      SvgStays(t, init, k);
      var (dirpath, filenames) := walk[|walk| - 1];
      assert forall j :: 0 <= j < |filenames| ==> !Contains(filenames[j], [SEP]) by {
        forall j | 0 <= j < |filenames| ensures !Contains(filenames[j], [SEP]) {
          assert filenames[j] == walk[|walk| - 1].1[j];
        }
      }
      SvgStaysFiles(AddWalk(t, init), dirpath, filenames, k);
    }
  }

  /** The test `Yields(_, k)` as a value. */
  function YieldsName(k: string): string -> bool {
    f => Yields(f, k)
  }

  /** Some file of the directory that is not hidden has image name `k`. */
  predicate FilesProvide(filenames: seq<string>, k: string) {
    AnyOf(filenames, YieldsName(k))
  }

  /** The test `FilesProvide(_, k)` on a directory of the walk, as a value. */
  function ProvidesName(k: string): WalkDir -> bool {
    (d: WalkDir) => FilesProvide(d.1, k)
  }

  /** Some file of the walk that is not hidden has image name `k`. */
  predicate WalkProvides(walk: seq<WalkDir>, k: string) {
    AnyOf(walk, ProvidesName(k))
  }

  /** The names in the table after a directory are those before and those of its visible files. */
  lemma {:induction false} FilesKeys(t: Table, dirpath: string, filenames: seq<string>, k: string)
    requires UniqueKeys(t)
    ensures HasKey(AddFiles(t, dirpath, filenames), k) <==> HasKey(t, k) || FilesProvide(filenames, k)
    decreases |filenames|
  {
    if |filenames| > 0 {
      var init := filenames[..|filenames| - 1];
      FilesKeys(t, dirpath, init, k);
      AddFileKeys(AddFiles(t, dirpath, init), dirpath, filenames[|filenames| - 1], k);
      AnyOfSnoc(filenames, YieldsName(k));
    }
  }

  /**
   * The names in the table after the walk are exactly those before and
   * those of the walk's files that are not hidden: nothing is ever removed.
   */
  lemma {:induction false} WalkKeys(t: Table, walk: seq<WalkDir>, k: string)
    requires UniqueKeys(t)
    ensures HasKey(AddWalk(t, walk), k) <==> HasKey(t, k) || WalkProvides(walk, k)
    decreases |walk|
  {
    if |walk| > 0 {
      var init := walk[..|walk| - 1];
      WalkKeys(t, init, k);
      FilesKeys(AddWalk(t, init), walk[|walk| - 1].0, walk[|walk| - 1].1, k);
      AnyOfSnoc(walk, ProvidesName(k));
    }
  }

  class ImagePathManager {
    var imgPath: Table
    const default: string

    predicate Valid()
      reads this`imgPath
    {
      UniqueKeys(imgPath)
    }

    /** The table starts from Spyder's own images directory. */
    constructor(isDir: bool, walk: seq<WalkDir>)
      ensures Valid()
      ensures imgPath == (if isDir then AddWalk([], walk) else [])
      ensures default == DEFAULT
    {
      imgPath := [];
      default := DEFAULT;
      new;
      AddImagePath(isDir, walk);
    }

    /** `add_image_path`: nothing unless the path is a directory; otherwise every file of the walk in order. */
    method AddImagePath(isDir: bool, walk: seq<WalkDir>)
      requires Valid()
      modifies this`imgPath
      ensures Valid()
      ensures imgPath == if isDir then AddWalk(old(imgPath), walk) else old(imgPath)
    {
      if !isDir {
        return;
      }
      var i := 0;
      while i < |walk|
        invariant 0 <= i <= |walk| && Valid()
        invariant imgPath == AddWalk(old(imgPath), walk[..i])
      {
        assert walk[..i + 1][..i] == walk[..i];
        var (dirpath, filenames) := walk[i];
        AddDirectory(dirpath, filenames);
        i := i + 1;
      }
      assert walk[..i] == walk;
    }

    /** The inner loop of `add_image_path`, over the files of one directory. */
    method AddDirectory(dirpath: string, filenames: seq<string>)
      requires Valid()
      modifies this`imgPath
      ensures Valid()
      ensures imgPath == AddFiles(old(imgPath), dirpath, filenames)
    {
      var j := 0;
      while j < |filenames|
        invariant 0 <= j <= |filenames| && Valid()
        invariant imgPath == AddFiles(old(imgPath), dirpath, filenames[..j])
      {
        assert filenames[..j + 1][..j] == filenames[..j];
        AddFileEntry(dirpath, filenames[j]);
        j := j + 1;
      }
      assert filenames[..j] == filenames;
    }

    /** One pass of the inner loop: a hidden file is skipped, a file from an `svg` directory wins. */
    method AddFileEntry(dirpath: string, filename: string)
      requires Valid()
      modifies this`imgPath
      ensures Valid()
      ensures imgPath == AddFile(old(imgPath), dirpath, filename)
    {
      if StartsWith(filename, ".") {
        return;
      }
      var name := Stem(Basename(filename, SEP), SEP);
      var completePath := PathJoin([dirpath, filename], SEP);
      var existing := Get(imgPath, name);
      if existing.Some? {
        if Basename(dirpath, SEP) == "svg" {
          imgPath := Put(imgPath, name, completePath);
        } else if Basename(Dirname(existing.value, SEP), SEP) == "svg" {
          return;
        } else {
          imgPath := Put(imgPath, name, completePath);
        }
      } else {
        imgPath := Put(imgPath, name, completePath);
      }
    }

    /**
     * `get_image_path`: the absolute path of the named image when it is a
     * file, `None` when it is not, and the default image's path for an
     * unknown name.
     */
    function GetImagePath(name: string, isFile: string -> bool, abspath: string -> string): (r: Result<Option<string>, string>)
      reads this`imgPath
      ensures HasKey(imgPath, name) ==> r.Ok? && (r.value.Some? <==> isFile(Get(imgPath, name).value))
      ensures HasKey(imgPath, name) && isFile(Get(imgPath, name).value) ==>
        r == Ok(Some(abspath(Get(imgPath, name).value)))
      ensures !HasKey(imgPath, name) ==> (r.Ok? <==> HasKey(imgPath, default))
      ensures !HasKey(imgPath, name) && HasKey(imgPath, default) ==>
        r == Ok(Some(abspath(Get(imgPath, default).value)))
    {
      match Get(imgPath, name)
      case Some(path) => if isFile(path) then Ok(Some(abspath(path))) else Ok(None)
      case None =>
        match Get(imgPath, default)
        case Some(path) => Ok(Some(abspath(path)))
        case None => Err("KeyError")
    }
  }
}
