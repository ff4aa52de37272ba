/** The asset bank of framework/src/assets.cpp: a list of the files found under an asset
    directory, each with a dependency count that orders the list once the bank is frozen,
    looked up by file name or by extension.  The directory walk is a parameter: the paths of
    the regular files in the order the walk yields them. */
module Assets {
  import opened Wrappers

  /** Where the last `c` of `s` is, if anywhere. */
  function LastIndexOf(s: string, c: char): (r: Option<nat>)
    ensures r.Some? ==> r.value < |s| && s[r.value] == c
    ensures r.Some? ==> forall j :: r.value < j < |s| ==> s[j] != c
    ensures r.None? ==> forall j :: 0 <= j < |s| ==> s[j] != c
  {
    if s == [] then None
    else if s[|s| - 1] == c then Some(|s| - 1)
    else LastIndexOf(s[..|s| - 1], c)
  }

  /** `path::filename`: what follows the last separator. */
  function Filename(path: string): (name: string)
    ensures forall j :: 0 <= j < |name| ==> name[j] != '/'
  {
    match LastIndexOf(path, '/')
    case None => path
    case Some(i) => path[i + 1..]
  }

  /** `path::extension`: the file name from its last dot on, empty when the name has no dot,
      starts with its only dot, or is `.` or `..`. */
  function Extension(path: string): (ext: string)
    ensures ext != [] ==> ext[0] == '.' && forall j :: 0 < j < |ext| ==> ext[j] != '.'
  {
    var name := Filename(path);
    if name == "." || name == ".." then ""
    else match LastIndexOf(name, '.')
      case None => ""
      case Some(i) => if i == 0 then "" else name[i..]
  }

  /** The last occurrence is the one with none after it. */
  lemma LastIndexAt(s: string, c: char, i: nat)
    requires i < |s| && s[i] == c && forall j :: i < j < |s| ==> s[j] != c
    ensures LastIndexOf(s, c) == Some(i)
  {
  }

  /** A name without separators joined to a directory is the file name of the path. */
  lemma FilenameOfJoin(dir: string, name: string)
    requires forall j :: 0 <= j < |name| ==> name[j] != '/'
    ensures Filename(dir + "/" + name) == name
  {
    var path := dir + "/" + name;
    LastIndexAt(path, '/', |dir|);
    assert path[|dir| + 1..] == name;
  }

  /** The last dot of a name whose extension part has no dot is the one before it. */
  lemma LastDot(stem: string, ext: string)
    requires forall j :: 0 <= j < |ext| ==> ext[j] != '.'
    ensures LastIndexOf(stem + "." + ext, '.') == Some(|stem|)
  {
    var name := stem + "." + ext;
    forall j | |stem| < j < |name|
      ensures name[j] != '.'
    {
      assert name[j] == ext[j - |stem| - 1];
    }
    LastIndexAt(name, '.', |stem|);
  }

  /** A file name with a stem and a dot has the dot and what follows it as its extension;
      `..` is the one exception. */
  lemma ExtensionOfName(path: string, stem: string, ext: string)
    requires forall j :: 0 <= j < |ext| ==> ext[j] != '.'
    requires Filename(path) == stem + "." + ext
    requires stem != [] && stem + "." + ext != ".."
    ensures Extension(path) == "." + ext
  {
    var name := stem + "." + ext;
    LastDot(stem, ext);
    assert |name| >= 2;
    assert name[|stem|..] == "." + ext;
  }

  /** A hidden file, whose name starts with its only dot, has no extension, and neither has
      a name without a dot. */
  lemma NoExtension(path: string, name: string)
    requires forall j :: 0 <= j < |name| ==> name[j] != '.'
    requires Filename(path) == name || Filename(path) == "." + name
    ensures Extension(path) == ""
  {
    if Filename(path) == "." + name && name != [] {
      LastDot([], name);
    }
  }

  /** `AssetBankFile`. */
  datatype AssetFile = AssetFile(path: string, dependencies: int)

  /** The file is called `name`. */
  predicate Named(f: AssetFile, name: string)
  {
    Filename(f.path) == name
  }

  /** The file has extension `extension`. */
  predicate HasExtension(f: AssetFile, extension: string)
  {
    Extension(f.path) == extension
  }

  /** The first file whose name is `name`. */
  function FirstNamed(files: seq<AssetFile>, name: string): (r: Option<nat>)
    ensures r.Some? ==> r.value < |files| && Named(files[r.value], name)
    ensures r.Some? ==> forall j {:trigger Named(files[j], name)} :: 0 <= j < r.value ==> !Named(files[j], name)
    ensures r.None? ==> forall j {:trigger Named(files[j], name)} :: 0 <= j < |files| ==> !Named(files[j], name)
  {
    if files == [] then None
    else if Named(files[0], name) then Some(0)
    else match FirstNamed(files[1..], name)
      case None => None
      case Some(i) => Some(i + 1)
  }

  /** The files after `dependency(name)`: the first file with that name counts one more
      dependency; when there is none nothing changes. */
  function Bumped(files: seq<AssetFile>, name: string): seq<AssetFile>
  {
    var r := FirstNamed(files, name);
    if r.None? then files
    else files[r.value := files[r.value].(dependencies := files[r.value].dependencies + 1)]
  }

  function Paths(files: seq<AssetFile>): (paths: seq<string>)
    ensures |paths| == |files| && forall i :: 0 <= i < |files| ==> paths[i] == files[i].path
  {
    if files == [] then [] else [files[0].path] + Paths(files[1..])
  }

  /** The sum of all dependency counts. */
  function TotalDependencies(files: seq<AssetFile>): int
  {
    if files == [] then 0 else TotalDependencies(files[..|files| - 1]) + files[|files| - 1].dependencies
  }

  /** Replacing one file's count changes the total by the difference. */
  lemma {:induction false} TotalUpdate(files: seq<AssetFile>, i: nat, f: AssetFile)
    requires i < |files|
    ensures TotalDependencies(files[i := f]) ==
      TotalDependencies(files) - files[i].dependencies + f.dependencies
    decreases |files|
  {
    var n := |files| - 1;
    var g := files[i := f];
    assert g[..n] == if i == n then files[..n] else files[..n][i := f];
    if i < n {
      TotalUpdate(files[..n], i, f);
    }
  }

  /** `dependency` keeps the list of paths and their order. */
  lemma BumpedPaths(files: seq<AssetFile>, name: string)
    ensures Paths(Bumped(files, name)) == Paths(files)
  {
  }

  /** `dependency` replaces the first file with that name by one with one more
      dependency. */
  lemma BumpedAt(files: seq<AssetFile>, name: string, i: nat)
    requires FirstNamed(files, name) == Some(i)
    ensures Bumped(files, name) == files[i := files[i].(dependencies := files[i].dependencies + 1)]
  {
  }

  /** `dependency` adds exactly one dependency when a file has that name and none
      otherwise. */
  lemma BumpedTotal(files: seq<AssetFile>, name: string)
    ensures (exists j {:trigger Named(files[j], name)} :: 0 <= j < |files| && Named(files[j], name)) ==>
      TotalDependencies(Bumped(files, name)) == TotalDependencies(files) + 1
    ensures (forall j {:trigger Named(files[j], name)} :: 0 <= j < |files| ==> !Named(files[j], name)) ==>
      TotalDependencies(Bumped(files, name)) == TotalDependencies(files)
  {
    var r := FirstNamed(files, name);
    if r.Some? {
      var i := r.value;
      BumpedAt(files, name, i);
      TotalUpdate(files, i, files[i].(dependencies := files[i].dependencies + 1));
    }
  }

  /** `dependency` touches only the first file with that name. */
  lemma BumpedOnlyFirst(files: seq<AssetFile>, name: string, j: nat)
    requires j < |files| && Bumped(files, name)[j] != files[j]
    ensures FirstNamed(files, name) == Some(j)
    ensures Named(files[j], name)
    ensures forall k {:trigger Named(files[k], name)} :: 0 <= k < j ==> !Named(files[k], name)
  {
  }

  /** The files in ascending dependency count. */
  predicate Ascending(files: seq<AssetFile>)
  {
    forall i, j :: 0 <= i < j < |files| ==> files[i].dependencies <= files[j].dependencies
  }

  /** A file put into a list at its place, before the first with at least its count. */
  function InsertByDependencies(files: seq<AssetFile>, f: AssetFile): seq<AssetFile>
  {
    if files == [] then [f]
    else if f.dependencies <= files[0].dependencies then [f] + files
    else [files[0]] + InsertByDependencies(files[1..], f)
  }

  lemma {:induction false} InsertPermutes(files: seq<AssetFile>, f: AssetFile)
    ensures multiset(InsertByDependencies(files, f)) == multiset(files) + multiset{f}
  {
    if files != [] && f.dependencies > files[0].dependencies {
      assert files == [files[0]] + files[1..];
      InsertPermutes(files[1..], f);
    }
  }

  /** A lower bound of the list and the file bounds the result. */
  lemma {:induction false} InsertBound(files: seq<AssetFile>, f: AssetFile, lo: int)
    requires forall k :: 0 <= k < |files| ==> lo <= files[k].dependencies
    requires lo <= f.dependencies
    ensures forall k :: 0 <= k < |InsertByDependencies(files, f)| ==>
      lo <= InsertByDependencies(files, f)[k].dependencies
  {
    if files != [] && f.dependencies > files[0].dependencies {
      InsertBound(files[1..], f, lo);
    }
  }

  lemma {:induction false} InsertSorted(files: seq<AssetFile>, f: AssetFile)
    requires Ascending(files)
    ensures Ascending(InsertByDependencies(files, f))
  {
    if files == [] {
    } else if f.dependencies <= files[0].dependencies {
      var r := [f] + files;
      forall i, j | 0 <= i < j < |r|
        ensures r[i].dependencies <= r[j].dependencies
      {
        if i > 0 {
          assert r[i] == files[i - 1];
        }
        assert r[j] == files[j - 1];
      }
    } else {
      var h := files[0];
      var tail := files[1..];
      var rest := InsertByDependencies(tail, f);
      InsertSorted(tail, f);
      InsertBound(tail, f, h.dependencies);
      var r := [h] + rest;
      forall i, j | 0 <= i < j < |r|
        ensures r[i].dependencies <= r[j].dependencies
      {
        assert r[j] == rest[j - 1];
        if i > 0 {
          assert r[i] == rest[i - 1];
        }
      }
    }
  }

  /** The sort of `freeze`: ascending dependency count, a permutation of the files. */
  method SortByDependencies(files: seq<AssetFile>) returns (sorted: seq<AssetFile>)
    ensures Ascending(sorted) && multiset(sorted) == multiset(files)
  {
    sorted := [];
    var i := 0;
    while i < |files|
      invariant 0 <= i <= |files|
      invariant Ascending(sorted) && multiset(sorted) == multiset(files[..i])
    {
      InsertSorted(sorted, files[i]);
      InsertPermutes(sorted, files[i]);
      sorted := InsertByDependencies(sorted, files[i]);
      assert files[..i + 1] == files[..i] + [files[i]];
      i := i + 1;
    }
    assert files[..i] == files;
  }

  /** The files with extension `extension`, in list order. */
  function WithExtension(files: seq<AssetFile>, extension: string): seq<AssetFile>
  {
    if files == [] then []
    else
      var init := WithExtension(files[..|files| - 1], extension);
      if HasExtension(files[|files| - 1], extension) then init + [files[|files| - 1]] else init
  }

  /** A file is found by extension exactly when it has that extension. */
  lemma {:induction false} WithExtensionMembers(files: seq<AssetFile>, extension: string)
    ensures forall f {:trigger f in WithExtension(files, extension)} ::
      f in WithExtension(files, extension) <==> f in files && HasExtension(f, extension)
  {
    if files != [] {
      var init := files[..|files| - 1];
      WithExtensionMembers(init, extension);
      assert files == init + [files[|files| - 1]];
    }
  }

  /** The files found by extension in a frozen bank come in ascending dependency count. */
  lemma {:induction false} WithExtensionAscending(files: seq<AssetFile>, extension: string)
    requires Ascending(files)
    ensures Ascending(WithExtension(files, extension))
  {
    if files != [] {
      var init := files[..|files| - 1];
      var last := files[|files| - 1];
      WithExtensionAscending(init, extension);
      WithExtensionMembers(init, extension);
      var found := WithExtension(init, extension);
      if HasExtension(last, extension) {
        forall k | 0 <= k < |found|
          ensures found[k].dependencies <= last.dependencies
        {
          assert found[k] in found;
          var j :| 0 <= j < |init| && init[j] == found[k];
        }
        var r := found + [last];
        forall i, j | 0 <= i < j < |r|
          ensures r[i].dependencies <= r[j].dependencies
        {
          assert r[i] == found[i];
          if j < |found| {
            assert r[j] == found[j];
          }
        }
      }
    }
  }

  /** `AssetBank`: the root directory and the list of files. */
  class AssetBank {
    var root: string
    var files: seq<AssetFile>

    constructor ()
      ensures root == "" && files == []
    {
      root, files := "", [];
    }

    /** `root`: the directory to scan. */
    method Root(path: string)
      modifies this
      ensures root == path && files == old(files)
    {
      root := path;
    }

    /** `scan`: the previous list is dropped and every regular file the walk yields is
        listed, in walk order, with no dependencies. */
    method Scan(walk: seq<string>)
      modifies this
      ensures root == old(root)
      ensures |files| == |walk| && forall i :: 0 <= i < |walk| ==> files[i] == AssetFile(walk[i], 0)
    {
      files := [];
      var i := 0;
      while i < |walk|
        invariant 0 <= i <= |walk| && root == old(root)
        invariant |files| == i && forall j :: 0 <= j < i ==> files[j] == AssetFile(walk[j], 0)
      {
        files := files + [AssetFile(walk[i], 0)];
        i := i + 1;
      }
    }

    /** `dependency`: the first file called `name` counts one more dependency; an unknown
        name changes nothing. */
    method Dependency(name: string)
      modifies this
      ensures root == old(root) && files == Bumped(old(files), name)
    {
      var i := 0;
      while i < |files| && !Named(files[i], name)
        invariant 0 <= i <= |files|
        invariant forall j {:trigger Named(files[j], name)} :: 0 <= j < i ==> !Named(files[j], name)
      {
        i := i + 1;
      }
      if i < |files| {
        files := files[i := files[i].(dependencies := files[i].dependencies + 1)];
      }
    }

    /** `freeze`: the files in ascending dependency count; files with equal counts may come
        in any order. */
    method Freeze()
      modifies this
      ensures root == old(root) && Ascending(files) && multiset(files) == multiset(old(files))
    {
      files := SortByDependencies(files);
    }

    /** `find`: the path of the first file called `name`, or the empty string. */
    method Find(name: string) returns (path: string)
      ensures FirstNamed(files, name).None? ==> path == ""
      ensures FirstNamed(files, name).Some? ==> path == files[FirstNamed(files, name).value].path
    {
      for i := 0 to |files|
        invariant forall j {:trigger Named(files[j], name)} :: 0 <= j < i ==> !Named(files[j], name)
      {
        if Named(files[i], name) {
          return files[i].path;
        }
      }
      return "";
    }

    /** `findByExtension`: the paths of the files with that extension, in list order. */
    method FindByExtension(extension: string) returns (found: seq<string>)
      ensures found == Paths(WithExtension(files, extension))
    {
      found := [];
      for i := 0 to |files|
        invariant found == Paths(WithExtension(files[..i], extension))
      {
        assert files[..i + 1][..i] == files[..i];
        if HasExtension(files[i], extension) {
          PathsAppend(WithExtension(files[..i], extension), files[i]);
        }
        found := if HasExtension(files[i], extension) then found + [files[i].path] else found;
      }
      assert files[..|files|] == files;
    }
  }

  lemma PathsAppend(files: seq<AssetFile>, f: AssetFile)
    ensures Paths(files + [f]) == Paths(files) + [f.path]
  {
  }
}
