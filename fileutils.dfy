// Path helpers and filesystem queries of pypeline/common/fileutils.py, over an
// abstract filesystem: a map from existing path to its entry (directory or
// file, with a modification time) and the set of executable files.
module FileUtils {
  import opened PyErrors
  import opened PyText
  import Sets

  // ---------------------------------------------------------------------
  // POSIX path operations (os.path of Python 2)

  /** `s.rfind(c)`: the last index of `c`, or -1. */
  function LastIndexOf(s: string, c: char): (r: int)
    ensures -1 <= r < |s|
    ensures r >= 0 ==> s[r] == c
    ensures forall i :: r < i < |s| ==> s[i] != c
  {
    if |s| == 0 then -1
    else if s[|s| - 1] == c then |s| - 1
    else LastIndexOf(s[..|s| - 1], c)
  }

  /** `os.path.splitext(p)`: the extension starts at the last dot after the
      last slash, unless everything between that slash and the dot is dots
      (a leading dot does not start an extension). */
  function SplitExt(p: string): (r: (string, string))
    ensures r.0 + r.1 == p
    ensures r.1 == "" || (r.1[0] == '.' && '.' !in r.1[1..] && '/' !in r.1)
  {
    var sep := LastIndexOf(p, '/');
    var dot := LastIndexOf(p, '.');
    if dot > sep && exists i :: sep + 1 <= i < dot && p[i] != '.' then
      assert p[dot..][1..] == p[dot + 1..];
      (p[..dot], p[dot..])
    else (p, "")
  }

  /** `os.path.basename(p)`. */
  function Basename(p: string): (r: string)
    ensures '/' !in r
    ensures |r| <= |p| && r == p[|p| - |r|..]
  {
    p[LastIndexOf(p, '/') + 1..]
  }

  /** `os.path.dirname(p)`: everything before the last slash, with trailing
      slashes removed unless it consists of slashes only. */
  function Dirname(p: string): string
  {
    var head := p[..LastIndexOf(p, '/') + 1];
    if |head| > 0 && exists i :: 0 <= i < |head| && head[i] != '/' then RStripSlashes(head)
    else head
  }

  function RStripSlashes(s: string): (r: string)
    ensures |r| <= |s| && r == s[..|r|]
  {
    if |s| > 0 && s[|s| - 1] == '/' then RStripSlashes(s[..|s| - 1]) else s
  }

  /** `os.path.join(a, b)`. */
  function PathJoin(a: string, b: string): (r: string)
  {
    if |b| > 0 && b[0] == '/' then b
    else if |a| == 0 || a[|a| - 1] == '/' then a + b
    else a + "/" + b
  }

  // ---------------------------------------------------------------------
  // add_postfix, swap_ext, reroot_path

  /** `add_postfix(filename, postfix)`. */
  function AddPostfix(filename: string, postfix: string): (r: string)
    ensures r == SplitExt(filename).0 + postfix + SplitExt(filename).1
  {
    var (stem, ext) := SplitExt(filename);
    stem + postfix + ext
  }

  /** `swap_ext(filename, ext)`: the stem, followed by `ext` with a leading
      dot added when it has none; "" and "." only strip the extension. */
  function SwapExt(filename: string, ext: string): (r: string)
    ensures ext == "" || ext == "." ==> r == SplitExt(filename).0
    ensures ext != "" && ext != "." && ext[0] == '.' ==> r == SplitExt(filename).0 + ext
    ensures ext != "" && ext[0] != '.' ==> r == SplitExt(filename).0 + "." + ext
  {
    var stem := SplitExt(filename).0;
    if ext == "" || ext == "." then stem
    else if ext[0] != '.' then stem + "." + ext
    else stem + ext
  }

  /** The part of a path's last component before its extension holds a
      character other than '.', so an extension added to it is recognised. */
  predicate HasNamedStem(p: string)
  {
    exists i :: LastIndexOf(p, '/') < i < |p| && p[i] != '.'
  }

  /** A well-formed extension: one leading dot, then no dot and no slash. */
  predicate IsExtension(e: string)
  {
    |e| >= 2 && e[0] == '.' && '.' !in e[1..] && '/' !in e
  }

  /** Appending an extension to a path whose last component has a named
      stem is undone by `splitext`. */
  lemma SplitExtAppend(stem: string, ext: string)
    requires HasNamedStem(stem) && IsExtension(ext)
    ensures SplitExt(stem + ext) == (stem, ext)
  {
    var p := stem + ext;
    LastIndexOfAppend(stem, ext, '/');
    LastIndexOfAppend(stem, ext, '.');
    assert LastIndexOf(ext, '.') == 0 by {
      assert forall i :: 0 < i < |ext| ==> ext[i] == ext[1..][i - 1];
    }
    var i :| LastIndexOf(stem, '/') < i < |stem| && stem[i] != '.';
    assert p[i] != '.';
    assert p[..|stem|] == stem && p[|stem|..] == ext;
  }

  lemma LastIndexOfAppend(a: string, b: string, c: char)
    ensures LastIndexOf(a + b, c) == if LastIndexOf(b, c) >= 0 then |a| + LastIndexOf(b, c) else LastIndexOf(a, c)
  {
    var p := a + b;
    var r := LastIndexOf(p, c);
    var rb := LastIndexOf(b, c);
    var ra := LastIndexOf(a, c);
    if rb >= 0 {
      assert p[|a| + rb] == c;
      LastIndexOfIsLast(p, c, |a| + rb);
    } else if ra >= 0 {
      assert forall i :: |a| <= i < |p| ==> p[i] == b[i - |a|];
      LastIndexOfIsLast(p, c, ra);
    } else {
      LastIndexOfNone(p, c);
    }
  }

  lemma {:induction false} LastIndexOfIsLast(s: string, c: char, k: int)
    requires 0 <= k < |s| && s[k] == c && forall i :: k < i < |s| ==> s[i] != c
    ensures LastIndexOf(s, c) == k
  {
    if k < |s| - 1 {
      LastIndexOfIsLast(s[..|s| - 1], c, k);
    }
  }

  lemma {:induction false} LastIndexOfNone(s: string, c: char)
    requires c !in s
    ensures LastIndexOf(s, c) == -1
  {
    if |s| > 0 {
      assert forall i :: 0 <= i < |s| - 1 ==> s[..|s| - 1][i] == s[i];
      LastIndexOfNone(s[..|s| - 1], c);
    }
  }

  /** `swap_ext` replaces the extension: the result's extension is the new one
      and its stem is the old stem. */
  lemma SwapExtReplacesExtension(filename: string, ext: string)
    requires HasNamedStem(SplitExt(filename).0)
    requires IsExtension(ext) || (|ext| >= 1 && IsExtension("." + ext))
    ensures SplitExt(SwapExt(filename, ext)) == (SplitExt(filename).0, if ext[0] == '.' then ext else "." + ext)
  {
    var stem := SplitExt(filename).0;
    if ext[0] == '.' {
      SplitExtAppend(stem, ext);
    } else {
      assert stem + "." + ext == stem + ("." + ext);
      SplitExtAppend(stem, "." + ext);
    }
  }

  /** `add_postfix` keeps the extension: the postfix goes into the stem. */
  lemma AddPostfixKeepsExtension(filename: string, postfix: string)
    requires HasNamedStem(SplitExt(filename).0)
    requires IsExtension(SplitExt(filename).1)
    requires '.' !in postfix && '/' !in postfix
    ensures SplitExt(AddPostfix(filename, postfix)) == (SplitExt(filename).0 + postfix, SplitExt(filename).1)
  {
    var (stem, ext) := SplitExt(filename);
    var i :| LastIndexOf(stem, '/') < i < |stem| && stem[i] != '.';
    LastIndexOfAppend(stem, postfix, '/');
    LastIndexOfNone(postfix, '/');
    assert (stem + postfix)[i] != '.';
    SplitExtAppend(stem + postfix, ext);
  }

  /** `reroot_path(root, filename)`: `filename`'s last component under
      `root`. */
  function RerootPath(root: string, filename: string): (r: string)
    ensures r == root + Basename(filename) || r == root + "/" + Basename(filename)
  {
    PathJoin(root, Basename(filename))
  }

  /** Rerooting keeps the file name. */
  lemma RerootKeepsBasename(root: string, filename: string)
    ensures Basename(RerootPath(root, filename)) == Basename(filename)
  {
    var b := Basename(filename);
    var r := RerootPath(root, filename);
    if |b| > 0 && b[0] == '/' {
    } else if |root| == 0 || root[|root| - 1] == '/' {
      LastIndexOfAppend(root, b, '/');
      LastIndexOfNone(b, '/');
      if |root| > 0 {
        LastIndexOfIsLast(root, '/', |root| - 1);
      } else {
        assert r == b;
      }
    } else {
      assert r == (root + "/") + b;
      LastIndexOfAppend(root + "/", b, '/');
      LastIndexOfNone(b, '/');
      LastIndexOfIsLast(root + "/", '/', |root|);
    }
  }

  // ---------------------------------------------------------------------
  // The abstract filesystem

  datatype Entry = Entry(isDir: bool, mtime: int)

  /** What the queries can observe: existing paths, executable files, and
      the directories of `$PATH` in order. */
  datatype FsView = FsView(entries: map<string, Entry>, executables: set<string>, searchPath: seq<string>)
  {
    predicate Exists(p: string) { p in entries }
    function Mtimes(): map<string, int> { map p | p in entries :: entries[p].mtime }
  }

  /** `missing_files(files)`: the files that do not exist. */
  function MissingFiles(fs: FsView, files: set<string>): (r: set<string>)
    ensures r <= files
    ensures forall f :: f in files ==> (f in r <==> !fs.Exists(f))
  {
    set f | f in files && !fs.Exists(f)
  }

  /** `is_executable(p)`. */
  predicate IsExecutable(fs: FsView, p: string)
  {
    p in fs.entries && !fs.entries[p].isDir && p in fs.executables
  }

  /** `executable_exists(f)`: a name with a directory part is looked up
      as is, a bare name in each `$PATH` directory. */
  predicate ExecutableExists(fs: FsView, f: string)
  {
    if Dirname(f) != "" then IsExecutable(fs, f)
    else exists i :: 0 <= i < |fs.searchPath| && IsExecutable(fs, PathJoin(fs.searchPath[i], f))
  }

  /** `missing_executables(files)`. */
  function MissingExecutables(fs: FsView, files: set<string>): (r: set<string>)
    ensures r <= files
    ensures forall f :: f in files ==> (f in r <==> !ExecutableExists(fs, f))
  {
    set f | f in files && !ExecutableExists(fs, f)
  }

  /** `modified_after(younger, older)`: the newest of `younger` is newer than
      the oldest of `older`. `max`/`min` of nothing is a ValueError and a
      missing file an OSError, younger files first. */
  function ModifiedAfter(fs: FsView, younger: set<string>, older: set<string>): (r: Result<bool>)
    ensures r.Ok? <==> younger != {} && older != {} && younger + older <= fs.entries.Keys
  {
    if younger == {} then Err(ValueError)
    else if !(younger <= fs.entries.Keys) then Err(OSError)
    else if older == {} then Err(ValueError)
    else if !(older <= fs.entries.Keys) then Err(OSError)
    else
      var mt := fs.Mtimes();
      Ok(Sets.MaxOf(younger, mt) > Sets.MinOf(older, mt))
  }

  /** Comparing the extremes is the same as asking whether some younger file
      is strictly newer than some older file; equal times give false. */
  lemma ModifiedAfterSomePair(fs: FsView, younger: set<string>, older: set<string>)
    requires ModifiedAfter(fs, younger, older).Ok?
    ensures ModifiedAfter(fs, younger, older).value <==>
      exists y, o :: y in younger && o in older && fs.entries[y].mtime > fs.entries[o].mtime
  {
    var mt := fs.Mtimes();
    var hi := Sets.MaxOf(younger, mt);
    var lo := Sets.MinOf(older, mt);
    if hi > lo {
      var y :| y in younger && mt[y] == hi;
      var o :| o in older && mt[o] == lo;
      assert fs.entries[y].mtime > fs.entries[o].mtime;
    } else {
      forall y, o | y in younger && o in older
        ensures fs.entries[y].mtime <= fs.entries[o].mtime
      {
        assert mt[y] <= hi && lo <= mt[o];
      }
    }
  }

  // ---------------------------------------------------------------------
  // describe_files

  /** `describe_files(files)`. */
  function DescribeFiles(files: seq<string>): (r: string)
    ensures |files| == 0 ==> r == "No files"
    ensures |files| == 1 ==> r == Repr(files[0])
    ensures |files| >= 2 && (forall i :: 0 <= i < |files| ==> Dirname(files[i]) == Dirname(files[0])) ==>
      r == IntToString(|files|) + " files in '" + Dirname(files[0]) + "'"
    ensures |files| >= 2 && (exists i :: 0 <= i < |files| && Dirname(files[i]) != Dirname(files[0])) ==>
      r == IntToString(|files|) + " files"
  {
    if |files| == 0 then "No files"
    else if |files| == 1 then Repr(files[0])
    else
      var paths := set i | 0 <= i < |files| :: Dirname(files[i]);
      assert Dirname(files[0]) in paths;
      if |paths| == 1 then
        assert paths == {Dirname(files[0])} by {
          assert |paths - {Dirname(files[0])}| == 0;
          assert paths - {Dirname(files[0])} == {};
        }
        assert forall i :: 0 <= i < |files| ==> Dirname(files[i]) in paths;
        IntToString(|files|) + " files in '" + Dirname(files[0]) + "'"
      else
        assert exists i :: 0 <= i < |files| && Dirname(files[i]) != Dirname(files[0]) by {
          assert |paths - {Dirname(files[0])}| >= 1;
          var p :| p in paths - {Dirname(files[0])};
          var i :| 0 <= i < |files| && Dirname(files[i]) == p;
        }
        IntToString(|files|) + " files"
  }

  // ---------------------------------------------------------------------
  // make_dirs and create_temp_dir

  /** The proper ancestors of a path: its prefixes ending just before a slash
      (the root itself excluded). */
  function Ancestors(p: string): set<string>
  {
    set i | 0 < i < |p| && p[i] == '/' :: p[..i]
  }

  /** `make_dirs(directory)` as a transition of the filesystem: the result and
      the new view. An existing path (EEXIST) gives False and changes nothing;
      an ancestor that is a file makes `os.makedirs` fail (OSError). */
  function MakeDirsSpec(fs: FsView, directory: string, now: int): (Result<bool>, FsView)
  {
    if directory == "" then (Err(ValueError), fs)
    else if directory in fs.entries then (Ok(false), fs)
    else if exists a :: a in Ancestors(directory) && a in fs.entries && !fs.entries[a].isDir then (Err(OSError), fs)
    else
      var created := (Ancestors(directory) - fs.entries.Keys) + {directory};
      (Ok(true), fs.(entries := fs.entries + map a | a in created :: Entry(true, now)))
  }

  /** Each of the first `i` names is already taken: its path is present,
      so `make_dirs` answers False for it. */
  ghost predicate TakenBefore(fs: FsView, root: string, names: seq<string>, i: nat)
  {
    i <= |names| && forall j :: 0 <= j < i ==> PathJoin(root, names[j]) != "" && PathJoin(root, names[j]) in fs.entries
  }

  /** `make_dirs` either creates the directory (with its missing parents) and
      answers True, or finds it present and answers False without change. */
  lemma MakeDirsOutcome(fs: FsView, directory: string, now: int)
    ensures var (r, fs') := MakeDirsSpec(fs, directory, now);
      (r == Ok(true) ==> directory !in fs.entries && directory in fs'.entries && fs'.entries[directory].isDir
                          && fs.entries.Keys <= fs'.entries.Keys
                          && forall a :: a in Ancestors(directory) ==> a in fs'.entries && fs'.entries[a].isDir)
      && (r == Ok(false) <==> directory != "" && directory in fs.entries)
      && (r == Ok(false) || r.Err? ==> fs' == fs)
      && (r.Ok? ==> forall p :: p in fs.entries ==> p in fs'.entries && fs'.entries[p] == fs.entries[p])
  {
  }

  /** A second `make_dirs` of the same directory reports that it exists. */
  lemma MakeDirsTwice(fs: FsView, directory: string, now: int, later: int)
    requires MakeDirsSpec(fs, directory, now).0.Ok?
    ensures MakeDirsSpec(MakeDirsSpec(fs, directory, now).1, directory, later) == (Ok(false), MakeDirsSpec(fs, directory, now).1)
  {
  }

  /** The filesystem the effectful operations act on. */
  class Disk {
    var view: FsView

    constructor (initial: FsView)
      ensures view == initial
    {
      view := initial;
    }

    /** `make_dirs(directory)`. */
    method MakeDirs(directory: string, now: int) returns (r: Result<bool>)
      modifies this
      ensures (r, view) == MakeDirsSpec(old(view), directory, now)
    {
      var (res, next) := MakeDirsSpec(view, directory, now);
      r := res;
      view := next;
    }

    /** `create_temp_dir(root)`: tries the generated names in turn until
        `make_dirs` creates one. The names stand for the successive
        `uuid4()` draws, one of which is assumed to be free. */
    method CreateTempDir(root: string, names: seq<string>, now: int) returns (r: Result<string>, ghost at: nat)
      requires exists i :: 0 <= i < |names| && PathJoin(root, names[i]) !in view.entries
      modifies this
      ensures r.Ok? ==> r.value !in old(view.entries) && r.value in view.entries && view.entries[r.value].isDir
      ensures r.Ok? ==> exists i :: 0 <= i < |names| && r.value == PathJoin(root, names[i])
      ensures r.Ok? ==> forall p :: p in old(view.entries) ==> p in view.entries && view.entries[p] == old(view.entries[p])
      ensures r.Err? ==> r.error == ValueError || r.error == OSError
      ensures at < |names| && TakenBefore(old(view), root, names, at)
      ensures r.Ok? ==> r.value == PathJoin(root, names[at]) && MakeDirsSpec(old(view), r.value, now) == (Ok(true), view)
      ensures r.Err? ==> MakeDirsSpec(old(view), PathJoin(root, names[at]), now).0 == Err(r.error) && view == old(view)
    {
      var k :| 0 <= k < |names| && PathJoin(root, names[k]) !in view.entries;
      var i := 0;
      while true
        invariant 0 <= i <= k
        invariant view == old(view)
        invariant TakenBefore(old(view), root, names, i)
        decreases k - i
      {
        var path := PathJoin(root, names[i]);
        var created := MakeDirs(path, now);
        MakeDirsOutcome(old(view), path, now);
        if created.Err? {
          return Err(created.error), i;
        }
        if created.value {
          return Ok(path), i;
        }
        assert i != k;
        i := i + 1;
      }
    }
  }
}
