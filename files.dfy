/**
 * BIfile.py: a `File` knows its name, directory and source files, and
 * computes its pathname once; a `Filer` maps tags to files.
 */
module Files {
  import opened Runtime
  import Db

  // ---------------------------------------------------------------------
  // Pathnames

  /** `directory + "/" + name`, or `name` alone when the directory is empty. */
  function PathJoin(dir: string, name: string): string
  {
    if dir == "" then name else dir + "/" + name
  }

  /** What follows the last '/' (all of `s` if it has none). */
  function AfterLastSlash(s: string): (r: string)
    ensures '/' !in r
  {
    if |s| == 0 then ""
    else if s[|s| - 1] == '/' then ""
    else AfterLastSlash(s[..|s| - 1]) + [s[|s| - 1]]
  }

  /** What precedes the last '/' (nothing if it has none). */
  function BeforeLastSlash(s: string): string
  {
    if |s| == 0 then ""
    else if s[|s| - 1] == '/' then s[..|s| - 1]
    else BeforeLastSlash(s[..|s| - 1])
  }

  lemma {:induction false} SlashFree(p: string, name: string)
    requires '/' !in name
    ensures AfterLastSlash(p + name) == AfterLastSlash(p) + name
    ensures BeforeLastSlash(p + name) == BeforeLastSlash(p)
    decreases |name|
  {
    if |name| > 0 {
      var init := name[..|name| - 1];
      assert (p + name)[..|p + name| - 1] == p + init;
      assert p + init == (p + init)[..|p + init|];
      SlashFree(p, init);
      assert (p + init) + [name[|name| - 1]] == p + name;
    } else {
      assert p + name == p;
    }
  }

  /**
   * A joined path splits back into its directory and a slash-free name:
   * the two halves of `pathname()` can be recovered from its result.
   */
  lemma PathJoinSplits(dir: string, name: string)
    requires '/' !in name
    ensures AfterLastSlash(PathJoin(dir, name)) == name
    ensures BeforeLastSlash(PathJoin(dir, name)) == dir
  {
    SlashFree("", name);
    assert "" + name == name;
    if dir != "" {
      var p := dir + "/";
      assert BeforeLastSlash(p) == dir && AfterLastSlash(p) == "" by {
        assert p[..|p| - 1] == dir;
      }
      SlashFree(p, name);
      assert dir + "/" + name == p + name;
    }
  }

  /** The cache `_pathname` is unset when it is None or the empty string (`if not self._pathname`). */
  predicate Unset(cache: Option<string>)
  {
    cache.None? || cache.value == ""
  }

  /** What `pathname()` returns: the cached value if there is one, otherwise the joined path. */
  function Resolve(cache: Option<string>, dir: string, name: string): string
  {
    if Unset(cache) then PathJoin(dir, name) else cache.value
  }

  /**
   * Once cached, a non-empty pathname is returned whatever the directory
   * and name have become since; an empty one is computed afresh.
   */
  lemma CacheWins(cache: Option<string>, dir: string, name: string, dir': string, name': string)
    ensures var p := Resolve(cache, dir, name);
            && (p != "" ==> Resolve(Some(p), dir', name') == p)
            && (p == "" ==> Resolve(Some(p), dir', name') == PathJoin(dir', name'))
  {
  }

  /** Computing the pathname again, with directory and name unchanged, gives the same path. */
  lemma ResolveStable(cache: Option<string>, dir: string, name: string)
    ensures Resolve(Some(Resolve(cache, dir, name)), dir, name) == Resolve(cache, dir, name)
  {
  }

  // ---------------------------------------------------------------------
  // Staleness

  /** The file system as far as `missingOrStale` sees it: the modification time of every existing file. */
  datatype FileSystem = FileSystem(mtimes: map<string, int>)

  /**
   * `missingOrStale(target, reference)` (BImisc.py): a missing target is
   * stale; without a reference an existing one is not; otherwise it is
   * stale when older than the reference, whose time cannot be read if it
   * does not exist.
   */
  function MissingOrStale(fs: FileSystem, target: string, reference: string): (r: Result<bool>)
    ensures target !in fs.mtimes ==> r == Ok(true)
    ensures r.Err? <==> target in fs.mtimes && reference != "" && reference !in fs.mtimes
    ensures r.Err? ==> r.error == OSError
    ensures target in fs.mtimes && reference in fs.mtimes && reference != "" ==>
              r == Ok(fs.mtimes[target] < fs.mtimes[reference])
  {
    if target !in fs.mtimes then Ok(true)
    else if reference == "" then Ok(false)
    else if reference !in fs.mtimes then Err(OSError)
    else Ok(fs.mtimes[target] < fs.mtimes[reference])
  }

  /** The loop over the sources: the first stale comparison answers True, the first error propagates. */
  function Scan(fs: FileSystem, target: string, refs: seq<string>): Result<bool>
  {
    if refs == [] then Ok(false)
    else match MissingOrStale(fs, target, refs[0])
      case Err(e) => Err(e)
      case Ok(stale) => if stale then Ok(true) else Scan(fs, target, refs[1..])
  }

  /** `stale()` as its documentation describes it, with the sources' pathnames `refs`. */
  function StaleBy(fs: FileSystem, target: string, refs: seq<string>): Result<bool>
  {
    if refs == [] then Ok(true) else Scan(fs, target, refs)
  }

  /** With every comparison possible, the scan answers whether any of them is stale. */
  lemma {:induction false} ScanMeaning(fs: FileSystem, target: string, refs: seq<string>)
    requires forall i :: 0 <= i < |refs| ==> MissingOrStale(fs, target, refs[i]).Ok?
    ensures Scan(fs, target, refs) == Ok(exists i :: 0 <= i < |refs| && MissingOrStale(fs, target, refs[i]) == Ok(true))
  {
    if refs != [] {
      ScanMeaning(fs, target, refs[1..]);
      if MissingOrStale(fs, target, refs[0]) == Ok(false) {
        assert forall i :: 1 <= i < |refs| ==> refs[i] == refs[1..][i - 1];
        assert (exists i :: 0 <= i < |refs| && MissingOrStale(fs, target, refs[i]) == Ok(true))
           ==> (exists i :: 0 <= i < |refs[1..]| && MissingOrStale(fs, target, refs[1..][i]) == Ok(true));
      }
    }
  }

  /**
   * "True if this file is older than at least one of its sources": for an
   * existing file whose sources all exist, `stale()` answers exactly that;
   * with no sources it answers True.
   */
  lemma StaleByMeaning(fs: FileSystem, target: string, refs: seq<string>)
    requires target in fs.mtimes
    requires forall i :: 0 <= i < |refs| ==> refs[i] != "" && refs[i] in fs.mtimes
    ensures StaleBy(fs, target, refs) ==
              Ok(refs == [] || exists i :: 0 <= i < |refs| && fs.mtimes[target] < fs.mtimes[refs[i]])
  {
    if refs != [] {
      ScanMeaning(fs, target, refs);
      assert forall i :: 0 <= i < |refs| ==>
               (MissingOrStale(fs, target, refs[i]) == Ok(true) <==> fs.mtimes[target] < fs.mtimes[refs[i]]);
    }
  }

  /** A file that does not exist is stale as soon as it has a source. */
  lemma MissingIsStale(fs: FileSystem, target: string, refs: seq<string>)
    requires target !in fs.mtimes
    ensures StaleBy(fs, target, refs) == Ok(true)
  {
  }

  // ---------------------------------------------------------------------
  // Files

  /** `File`. */
  class File {
    var name: string
    var directory: string
    var sources: seq<File>
    /** `_pathname`. */
    var cache: Option<string>

    /** `File(name, dir, sources)`: nothing cached yet. */
    constructor (name: string, dir: string, sources: seq<File>)
      ensures this.name == name && directory == dir && this.sources == sources && cache == None
    {
      this.name := name;
      directory := dir;
      this.sources := sources;
      cache := None;
    }

    /** `pathname()`: the cached pathname, computing and caching it when unset. */
    method Pathname() returns (p: string)
      modifies this
      ensures p == Resolve(old(cache), directory, name) && cache == Some(p)
      ensures name == old(name) && directory == old(directory) && sources == old(sources)
    {
      if Unset(cache) {
        if directory != "" {
          cache := Some(directory + "/" + name);
        } else {
          cache := Some(name);
        }
      }
      p := cache.value;
    }

    /**
     * `stale()` as written: True without sources; with sources the loop's
     * first step names `Utils`, which the module never defines.
     */
    function Stale(): (r: Result<bool>)
      reads this
      ensures r.Ok? <==> sources == []
      ensures r.Ok? ==> r.value
      ensures r.Err? ==> r.error == NameError
    {
      if sources != [] then Err(NameError) else Ok(true)
    }

    /**
     * `stale()` calling the imported `missingOrStale` on each source in
     * turn. Pathnames get cached along the way, which does not change any
     * of them.
     */
    method StaleUnder(fs: FileSystem) returns (r: Result<bool>)
      modifies this, sources
      ensures r == StaleBy(fs, old(Resolve(cache, directory, name)), old(Paths(sources)))
      ensures sources == old(sources)
      ensures forall s: File :: s == this || s in sources ==>
                Keeps(s, old(s.name), old(s.directory), old(s.sources), old(Resolve(s.cache, s.directory, s.name)))
    {
      ghost var target := Resolve(cache, directory, name);
      ghost var refs := Paths(sources);
      PathsAt(sources);
      if sources == [] {
        return Ok(true);
      }
      var i := 0;
      while i < |sources|
        invariant 0 <= i <= |sources| && sources == old(sources)
        invariant forall s: File :: s == this || s in sources ==>
                    Keeps(s, old(s.name), old(s.directory), old(s.sources), old(Resolve(s.cache, s.directory, s.name)))
        invariant Scan(fs, target, refs) == Scan(fs, target, refs[i..])
      {
        ghost var c0 := cache;
        var t := Pathname();
        ResolveStable(c0, directory, name);
        var src := sources[i];
        ghost var c1 := src.cache;
        var p := src.Pathname();
        ResolveStable(c1, src.directory, src.name);
        assert t == target && p == refs[i];
        assert refs[i..][1..] == refs[i + 1..];
        var m := MissingOrStale(fs, t, p);
        if m.Err? {
          return Err(m.error);
        }
        if m.value {
          return Ok(true);
        }
        i := i + 1;
      }
      return Ok(false);
    }
  }

  /** `s` still has this name, directory and sources, and resolves to `path`. */
  ghost predicate Keeps(s: File, name: string, dir: string, sources: seq<File>, path: string)
    reads s
  {
    s.name == name && s.directory == dir && s.sources == sources && Resolve(s.cache, s.directory, s.name) == path
  }

  /** The pathnames the files would return. */
  function Paths(files: seq<File>): (r: seq<string>)
    reads files
    ensures |r| == |files|
  {
    if files == [] then []
    else Paths(files[..|files| - 1]) + [Resolve(files[|files| - 1].cache, files[|files| - 1].directory, files[|files| - 1].name)]
  }

  lemma {:induction false} PathsAt(files: seq<File>)
    ensures forall i :: 0 <= i < |files| ==>
              Paths(files)[i] == Resolve(files[i].cache, files[i].directory, files[i].name)
  {
    if files != [] {
      PathsAt(files[..|files| - 1]);
    }
  }

  /**
   * Where the two versions of `stale()` part: a missing file with one
   * source is stale, but the code as written raises NameError.
   */
  lemma StaleDisagrees(f: File, fs: FileSystem)
    requires |f.sources| == 1 && Resolve(f.cache, f.directory, f.name) !in fs.mtimes
    ensures f.Stale() == Err(NameError)
    ensures StaleBy(fs, Resolve(f.cache, f.directory, f.name), Paths(f.sources)) == Ok(true)
  {
  }

  // ---------------------------------------------------------------------
  // Filer

  /** `Filer`: files by tag, and the directory new files default to. */
  class Filer {
    var files: map<string, File>
    var directory: string

    /** `Filer(directory)`. */
    constructor (directory: string)
      ensures files == map[] && this.directory == directory
    {
      files := map[];
      this.directory := directory;
    }

    /**
     * `addFile(tag, name, sources, dir)`: a new file in `dir`, or in the
     * filer's directory when `dir` is None or empty, stored under `tag` in
     * place of any earlier one; the other tags keep their files.
     */
    method AddFile(tag: string, name: string, sources: seq<File>, dir: Option<string>) returns (f: File)
      modifies this
      ensures fresh(f) && f.name == name && f.sources == sources && f.cache == None
      ensures f.directory == if dir.None? || dir.value == "" then directory else dir.value
      ensures files == old(files)[tag := f] && directory == old(directory)
    {
      var d := if dir.None? || dir.value == "" then directory else dir.value;
      f := new File(name, d, sources);
      files := files[tag := f];
    }

    /** `file(tag)`: the file stored under `tag`, or None. */
    function File(tag: string): (r: Option<File>)
      reads this
      ensures r.Some? <==> tag in files
      ensures r.Some? ==> r.value == files[tag]
    {
      Db.Dget(files, tag)
    }

    /** `pathname(tag)`: the pathname of the file stored under `tag`, which it caches, or None. */
    method Pathname(tag: string) returns (p: Option<string>)
      modifies if tag in files then {files[tag]} else {}
      ensures tag !in files ==> p == None
      ensures tag in files ==> var f := files[tag];
                p == Some(Resolve(old(f.cache), f.directory, f.name)) && f.cache == Some(p.value)
                && f.name == old(f.name) && f.directory == old(f.directory) && f.sources == old(f.sources)
    {
      var f := File(tag);
      if f.Some? {
        var path := f.value.Pathname();
        p := Some(path);
      } else {
        p := None;
      }
    }
  }
}
