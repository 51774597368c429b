/** The plugin package searcher (`src/lua/plugin.rs`): `require` of a module `a.b` looks in
    every plugin directory for `lua/a/b.lua`, then for `lua/a/b/init.lua`, and loads the first
    file it finds; `register` appends this searcher to `package.searchers`. */
module Plugin {
  import opened Wrappers
  import opened Text
  import opened Paths
  import opened Macros
  import opened Guest

  /** The part of the filesystem the searcher looks at: which paths are directories, which
      are files, and the listing of the plugin root (`read_dir`), whose reading and whose
      entries may each fail with an I/O error. */
  datatype FileSystem = FileSystem(dirs: set<string>, files: set<string>, listing: Result<seq<Result<string, string>>, string>)

  /** What the searcher returns to `require`: a loader function and the path it came from,
      or the reason text that is appended to the "module not found" message. */
  datatype Searched = Found(loader: nat, path: string) | NotFound(reason: string)

  /** Loading a file as a chunk (`lua.load(path).into_function()`): the handle of the function,
      or the error of reading or compiling it. */
  type Compiler = string -> Result<nat, LuaError>

  /** The reason given when the plugin root is not a directory. */
  const NoPluginDir: string := "\n\tno dfim plugin directory"

  /** The reason given when no plugin holds the module. */
  function NotFoundReason(modname: string, count: nat): string
  {
    "\n\tno dfim plugins contain module '" + modname + "' (" + NatToDecimal(count) + " searched)"
  }

  /** `s.replace(c, with)`: every `c` replaced by `with`. */
  function Replace(s: string, c: char, with: string): (r: string)
    ensures c !in with ==> c !in r
    ensures c !in s ==> r == s
  {
    if s == [] then ""
    else (if s[0] == c then with else [s[0]]) + Replace(s[1..], c, with)
  }

  /** Module names become paths below `lua`: `a.b` is `a/b`. */
  function ModulePath(modname: string): string
  {
    Replace(modname, '.', PathSep(false))
  }

  /** The two file name endings tried, in order: `.lua` and `path!(/ "init.lua")`. */
  function Suffixes(): (r: seq<string>)
    ensures r == [".lua", "/init.lua"]
  {
    assert PathSep(false) == "/" && PathMacro(false, ["init.lua"], false) == "init.lua";
    assert PathMacro(true, ["init.lua"], false) == PathSep(false) + PathMacro(false, ["init.lua"], false);
    assert "/" + "init.lua" == "/init.lua";
    [".lua", PathMacro(true, ["init.lua"], false)]
  }

  /** The file tried in plugin directory `entry` for ending `suffix`. */
  function Probe(entry: string, modname: string, suffix: string): string
  {
    JoinPath(JoinPath(entry, "lua"), ModulePath(modname) + suffix)
  }

  /** The inner loop: the first of the endings whose file exists gives the result (its
      loader, or the error of loading it); `None` when none exists. */
  function ProbeSpec(fs: FileSystem, entry: string, modname: string, suffixes: seq<string>, compile: Compiler): (r: Option<Result<Searched, LuaError>>)
    ensures r.None? <==> forall j :: 0 <= j < |suffixes| ==> Probe(entry, modname, suffixes[j]) !in fs.files
    ensures r.Some? ==> exists j ::
      && 0 <= j < |suffixes| && Probe(entry, modname, suffixes[j]) in fs.files
      && (forall k :: 0 <= k < j ==> Probe(entry, modname, suffixes[k]) !in fs.files)
      && r.value == Loaded(Probe(entry, modname, suffixes[j]), compile)
    decreases |suffixes|
  {
    if suffixes == [] then None
    else
      var p := Probe(entry, modname, suffixes[0]);
      if p in fs.files then Some(Loaded(p, compile))
      else
        var r := ProbeSpec(fs, entry, modname, suffixes[1..], compile);
        if r.Some? then
          var j :| && 0 <= j < |suffixes[1..]| && Probe(entry, modname, suffixes[1..][j]) in fs.files
            && (forall k :: 0 <= k < j ==> Probe(entry, modname, suffixes[1..][k]) !in fs.files)
            && r.value == Loaded(Probe(entry, modname, suffixes[1..][j]), compile);
          assert forall k :: 0 <= k < j + 1 ==> Probe(entry, modname, suffixes[k]) !in fs.files by {
            forall k | 0 <= k < j + 1
              ensures Probe(entry, modname, suffixes[k]) !in fs.files
            {
              if k > 0 {
                assert suffixes[k] == suffixes[1..][k - 1];
              }
            }
          }
          assert suffixes[j + 1] == suffixes[1..][j];
          r
        else
          assert forall j :: 1 <= j < |suffixes| ==> suffixes[j] == suffixes[1..][j - 1];
          r
  }

  /** The result for an existing file: its loader and its path, or the loading error. */
  function Loaded(p: string, compile: Compiler): Result<Searched, LuaError>
  {
    match compile(p)
    case Err(e) => Err(e)
    case Ok(f) => Ok(Found(f, p))
  }

  /** The number of entries that were read and are directories. */
  function CountDirs(fs: FileSystem, entries: seq<Result<string, string>>): nat
  {
    if entries == [] then 0
    else (if entries[0].Ok? && entries[0].value in fs.dirs then 1 else 0) + CountDirs(fs, entries[1..])
  }

  /** The outer loop from the entries still to be read, having seen `count` directories. */
  function SearchFrom(fs: FileSystem, entries: seq<Result<string, string>>, modname: string, count: nat, compile: Compiler): (r: Result<Searched, LuaError>)
    ensures r.Ok? && r.value.Found? ==> r.value.path in fs.files && compile(r.value.path) == Ok(r.value.loader)
    decreases |entries|
  {
    if entries == [] then Ok(NotFound(NotFoundReason(modname, count)))
    else
      match entries[0]
      case Err(e) => Err(External(e))
      case Ok(entry) =>
        if entry !in fs.dirs then SearchFrom(fs, entries[1..], modname, count, compile)
        else
          match ProbeSpec(fs, entry, modname, Suffixes(), compile)
          case Some(r) => r
          case None => SearchFrom(fs, entries[1..], modname, count + 1, compile)
  }

  /** `search_plugins(modname)` over the plugin root `root`: without the root there is nothing
      to find, a listing that fails is an error, and a loader found is the compiled form of a
      file that exists. */
  function SearchSpec(fs: FileSystem, root: string, modname: string, compile: Compiler): (r: Result<Searched, LuaError>)
    ensures root !in fs.dirs ==> r == Ok(NotFound(NoPluginDir))
    ensures root in fs.dirs && fs.listing.Err? ==> r == Err(External(fs.listing.error))
    ensures r.Ok? && r.value.Found? ==> root in fs.dirs && r.value.path in fs.files && compile(r.value.path) == Ok(r.value.loader)
  {
    if root !in fs.dirs then Ok(NotFound(NoPluginDir))
    else
      match fs.listing
      case Err(e) => Err(External(e))
      case Ok(entries) => SearchFrom(fs, entries, modname, 0, compile)
  }

  // ---------------------------------------------------------------------------------------
  // properties of the search

  /** Neither file tried in plugin directory `entry` exists. */
  predicate Misses(fs: FileSystem, entry: string, modname: string)
  {
    forall k :: 0 <= k < |Suffixes()| ==> Probe(entry, modname, Suffixes()[k]) !in fs.files
  }

  /** An entry the search reads and passes over: not a directory, or one without the module. */
  predicate PassedOver(fs: FileSystem, e: Result<string, string>, modname: string)
  {
    e.Ok? && (e.value in fs.dirs ==> Misses(fs, e.value, modname))
  }

  /** `path` is the file tried for ending `j` in `entry`, it exists, and no file for an earlier
      ending does. */
  predicate FirstHit(fs: FileSystem, entry: string, modname: string, j: int, path: string)
  {
    && 0 <= j < |Suffixes()| && path == Probe(entry, modname, Suffixes()[j]) && path in fs.files
    && forall k :: 0 <= k < j ==> Probe(entry, modname, Suffixes()[k]) !in fs.files
  }

  /** Without a plugin root directory the search reports so, and is not an error. */
  lemma NoRootReported(fs: FileSystem, root: string, modname: string, compile: Compiler)
    requires root !in fs.dirs
    ensures SearchSpec(fs, root, modname, compile) == Ok(NotFound("\n\tno dfim plugin directory"))
  {
  }

  /** An entry that is not a directory is skipped and not counted. */
  lemma NonDirectorySkipped(fs: FileSystem, entry: string, rest: seq<Result<string, string>>, modname: string, count: nat, compile: Compiler)
    requires entry !in fs.dirs
    ensures SearchFrom(fs, [Ok(entry)] + rest, modname, count, compile) == SearchFrom(fs, rest, modname, count, compile)
  {
    assert ([Ok(entry)] + rest)[1..] == rest;
  }

  /** When every entry reads and no plugin directory has the module, the reason names the
      module and the number of directories searched. */
  lemma {:induction false} NotFoundCounts(fs: FileSystem, entries: seq<Result<string, string>>, modname: string, count: nat, compile: Compiler)
    requires forall i :: 0 <= i < |entries| ==> PassedOver(fs, entries[i], modname)
    ensures SearchFrom(fs, entries, modname, count, compile)
      == Ok(NotFound(NotFoundReason(modname, count + CountDirs(fs, entries))))
    decreases |entries|
  {
    if entries != [] {
      var e := entries[0].value;
      var c := if e in fs.dirs then count + 1 else count;
      PassStep(fs, entries, modname, count, compile);
      forall i | 0 <= i < |entries[1..]| ensures PassedOver(fs, entries[1..][i], modname) {
        assert entries[1..][i] == entries[i + 1];
      }
      NotFoundCounts(fs, entries[1..], modname, c, compile);
      assert count + CountDirs(fs, entries) == c + CountDirs(fs, entries[1..]);
    }
  }

  /** Passing over the first entry: the search goes on with the rest, one more directory
      counted when the entry is one. */
  lemma PassStep(fs: FileSystem, entries: seq<Result<string, string>>, modname: string, count: nat, compile: Compiler)
    requires entries != [] && PassedOver(fs, entries[0], modname)
    ensures var c := if entries[0].value in fs.dirs then count + 1 else count;
      SearchFrom(fs, entries, modname, count, compile) == SearchFrom(fs, entries[1..], modname, c, compile)
    ensures CountDirs(fs, entries) == (if entries[0].value in fs.dirs then 1 else 0) + CountDirs(fs, entries[1..])
  {
  }

  /** The converse of `FoundIsFirst`: a directory entry holding one of the files tried, after
      entries that were all read and passed over, is where the search stops, with what the
      probe of that directory gives. */
  lemma {:induction false} FirstHitReturned(fs: FileSystem, entries: seq<Result<string, string>>, modname: string, count: nat, compile: Compiler, i: nat)
    requires i < |entries| && entries[i].Ok? && entries[i].value in fs.dirs && !Misses(fs, entries[i].value, modname)
    requires forall i' :: 0 <= i' < i ==> PassedOver(fs, entries[i'], modname)
    ensures ProbeSpec(fs, entries[i].value, modname, Suffixes(), compile).Some?
    ensures SearchFrom(fs, entries, modname, count, compile) == ProbeSpec(fs, entries[i].value, modname, Suffixes(), compile).value
    decreases i
  {
    if i > 0 {
      var c := if entries[0].value in fs.dirs then count + 1 else count;
      PassStep(fs, entries, modname, count, compile);
      forall i' | 0 <= i' < i - 1 ensures PassedOver(fs, entries[1..][i'], modname) {
        assert entries[1..][i'] == entries[i' + 1];
      }
      assert entries[1..][i - 1] == entries[i];
      FirstHitReturned(fs, entries[1..], modname, c, compile, i - 1);
    }
  }

  /** `search_plugins` on a listing whose entries up to `i` read, with directory `i` the first
      holding the module: the search returns that directory's loader (or its loading error). */
  lemma SearchReturnsFirstHit(fs: FileSystem, root: string, modname: string, compile: Compiler, i: nat)
    requires root in fs.dirs && fs.listing.Ok?
    requires i < |fs.listing.value| && fs.listing.value[i].Ok?
    requires fs.listing.value[i].value in fs.dirs && !Misses(fs, fs.listing.value[i].value, modname)
    requires forall i' :: 0 <= i' < i ==> PassedOver(fs, fs.listing.value[i'], modname)
    ensures SearchSpec(fs, root, modname, compile) == ProbeSpec(fs, fs.listing.value[i].value, modname, Suffixes(), compile).value
  {
    FirstHitReturned(fs, fs.listing.value, modname, 0, compile, i);
  }

  /** An entry that fails to read, after entries that all read and were passed over, ends the
      search with that entry's error. */
  lemma {:induction false} EntryErrorReported(fs: FileSystem, entries: seq<Result<string, string>>, modname: string, count: nat, compile: Compiler, i: nat)
    requires i < |entries| && entries[i].Err?
    requires forall i' :: 0 <= i' < i ==> PassedOver(fs, entries[i'], modname)
    ensures SearchFrom(fs, entries, modname, count, compile) == Err(External(entries[i].error))
    decreases i
  {
    if i > 0 {
      var c := if entries[0].value in fs.dirs then count + 1 else count;
      PassStep(fs, entries, modname, count, compile);
      forall i' | 0 <= i' < i - 1 ensures PassedOver(fs, entries[1..][i'], modname) {
        assert entries[1..][i'] == entries[i' + 1];
      }
      assert entries[1..][i - 1] == entries[i];
      EntryErrorReported(fs, entries[1..], modname, c, compile, i - 1);
    }
  }

  /** `search_plugins` on a listing whose entry `i` fails to read, earlier entries read and
      passed over: the search fails with that entry's error. */
  lemma SearchReportsEntryError(fs: FileSystem, root: string, modname: string, compile: Compiler, i: nat)
    requires root in fs.dirs && fs.listing.Ok?
    requires i < |fs.listing.value| && fs.listing.value[i].Err?
    requires forall i' :: 0 <= i' < i ==> PassedOver(fs, fs.listing.value[i'], modname)
    ensures SearchSpec(fs, root, modname, compile) == Err(External(fs.listing.value[i].error))
  {
    EntryErrorReported(fs, fs.listing.value, modname, 0, compile, i);
  }

  /** A successful search returns an existing file: the first of the two files tried in a
      directory entry, every earlier entry having been passed over. */
  lemma {:induction false} FoundIsFirst(fs: FileSystem, entries: seq<Result<string, string>>, modname: string, count: nat, compile: Compiler)
    requires SearchFrom(fs, entries, modname, count, compile).Ok?
    requires SearchFrom(fs, entries, modname, count, compile).value.Found?
    ensures exists i, j :: FoundAt(fs, entries, modname, compile, SearchFrom(fs, entries, modname, count, compile).value, i, j)
    decreases |entries|
  {
    var r := SearchFrom(fs, entries, modname, count, compile).value;
    var e := entries[0].value;
    var tail := entries[1..];
    if e in fs.dirs && ProbeSpec(fs, e, modname, Suffixes(), compile).Some? {
      var j :| && 0 <= j < |Suffixes()| && Probe(e, modname, Suffixes()[j]) in fs.files
        && (forall k :: 0 <= k < j ==> Probe(e, modname, Suffixes()[k]) !in fs.files)
        && ProbeSpec(fs, e, modname, Suffixes(), compile).value == Loaded(Probe(e, modname, Suffixes()[j]), compile);
      assert FoundAt(fs, entries, modname, compile, r, 0, j);
    } else {
      var c := if e in fs.dirs then count + 1 else count;
      assert PassedOver(fs, entries[0], modname);
      PassStep(fs, entries, modname, count, compile);
      FoundIsFirst(fs, tail, modname, c, compile);
      var i, j :| FoundAt(fs, tail, modname, compile, r, i, j);
      FoundAtCons(fs, entries, modname, compile, r, i, j);
    }
  }

  /** The search found `r` in directory entry `i`, as the file for ending `j`, every earlier
      entry having been passed over. */
  predicate FoundAt(fs: FileSystem, entries: seq<Result<string, string>>, modname: string, compile: Compiler, r: Searched, i: int, j: int)
    requires r.Found?
  {
    && 0 <= i < |entries| && entries[i].Ok? && entries[i].value in fs.dirs
    && FirstHit(fs, entries[i].value, modname, j, r.path) && Ok(r) == Loaded(r.path, compile)
    && forall i' :: 0 <= i' < i ==> PassedOver(fs, entries[i'], modname)
  }

  lemma FoundAtCons(fs: FileSystem, entries: seq<Result<string, string>>, modname: string, compile: Compiler, r: Searched, i: int, j: int)
    requires r.Found? && entries != [] && PassedOver(fs, entries[0], modname)
    requires FoundAt(fs, entries[1..], modname, compile, r, i, j)
    ensures FoundAt(fs, entries, modname, compile, r, i + 1, j)
  {
    var tail := entries[1..];
    assert entries[i + 1] == tail[i];
    forall i' | 0 <= i' < i + 1 ensures PassedOver(fs, entries[i'], modname) {
      if i' > 0 {
        assert entries[i'] == tail[i' - 1];
      }
    }
  }

  /** In one plugin directory, `lua/<name>.lua` wins over `lua/<name>/init.lua`, and the
      latter is used only when the former does not exist. */
  lemma ProbeOrder(fs: FileSystem, entry: string, modname: string, compile: Compiler)
    ensures Probe(entry, modname, ".lua") in fs.files ==>
      ProbeSpec(fs, entry, modname, Suffixes(), compile) == Some(Loaded(Probe(entry, modname, ".lua"), compile))
    ensures Probe(entry, modname, ".lua") !in fs.files && Probe(entry, modname, "/init.lua") in fs.files ==>
      ProbeSpec(fs, entry, modname, Suffixes(), compile) == Some(Loaded(Probe(entry, modname, "/init.lua"), compile))
  {
    assert Suffixes()[1..] == ["/init.lua"];
    assert Suffixes()[1..][1..] == [];
  }

  /** For a module name made of two plain segments, the file tried for an ending that does not
      start with `.` or `/` is `lua/a/b<ending>` below the plugin directory; so `lua/a/b.lua`
      comes first and `lua/a/b/init.lua` second. */
  lemma ProbePaths(entry: string, first: string, second: string, suffix: string)
    requires '.' !in first && '.' !in second && first != [] && first[0] != '/'
    requires entry != [] && entry[|entry| - 1] != '/'
    ensures Probe(entry, first + "." + second, suffix) == entry + "/lua/" + first + "/" + second + suffix
  {
    var rel := first + "/" + second + suffix;
    ModulePathOfTwo(first, second);
    assert rel[0] == first[0];
    ProbeJoin(entry, rel);
  }

  /** A relative path below a plugin directory that does not end with `/` lies under its `lua`
      directory. */
  lemma ProbeJoin(entry: string, rel: string)
    requires entry != [] && entry[|entry| - 1] != '/' && rel != [] && rel[0] != '/'
    ensures JoinPath(JoinPath(entry, "lua"), rel) == entry + "/lua/" + rel
  {
    var dir := entry + "/lua";
    assert JoinPath(entry, "lua") == dir;
    assert dir[|dir| - 1] == 'a';
  }

  /** The path of a module `a.b` is `a/b`. */
  lemma ModulePathOfTwo(first: string, second: string)
    requires '.' !in first && '.' !in second
    ensures ModulePath(first + "." + second) == first + "/" + second
  {
    assert PathSep(false) == "/";
    assert first + "." + second == first + ("." + second);
    ReplaceConcat(first, "." + second, '.', "/");
    ReplaceConcat(".", second, '.', "/");
    assert Replace(".", '.', "/") == "/" + Replace("", '.', "/");
  }

  /** Replacing distributes over concatenation. */
  lemma {:induction false} ReplaceConcat(a: string, b: string, c: char, with: string)
    ensures Replace(a + b, c, with) == Replace(a, c, with) + Replace(b, c, with)
    decreases |a|
  {
    if a != [] {
      assert (a + b)[1..] == a[1..] + b;
      ReplaceConcat(a[1..], b, c, with);
    } else {
      assert a + b == b;
    }
  }

  /** A module name starting with `.` turns into an absolute path, which `join` keeps as it
      is: the files tried then lie outside the plugin directory. */
  lemma LeadingDotEscapes(entry: string, rest: string)
    requires '.' !in rest
    ensures Probe(entry, "." + rest, ".lua") == "/" + rest + ".lua"
  {
    ReplaceConcat(".", rest, '.', "/");
  }

  // ---------------------------------------------------------------------------------------
  // the searcher and its registration

  /** `search_plugins(modname)`. */
  method SearchPlugins(fs: FileSystem, root: string, modname: string, compile: Compiler) returns (r: Result<Searched, LuaError>)
    ensures r == SearchSpec(fs, root, modname, compile)
  {
    if root !in fs.dirs {
      return Ok(NotFound(NoPluginDir));
    }
    if fs.listing.Err? {
      return Err(External(fs.listing.error));
    }
    var entries := fs.listing.value;
    var count := 0;
    var i := 0;
    while i < |entries|
      invariant 0 <= i <= |entries|
      invariant SearchFrom(fs, entries, modname, 0, compile) == SearchFrom(fs, entries[i..], modname, count, compile)
    {
      assert entries[i..][0] == entries[i] && entries[i..][1..] == entries[i + 1..];
      if entries[i].Err? {
        return Err(External(entries[i].error));
      }
      var entry := entries[i].value;
      if entry !in fs.dirs {
        i := i + 1;
        continue;
      }
      count := count + 1;
      var found := ProbeEntry(fs, entry, modname, compile);
      if found.Some? {
        return found.value;
      }
      i := i + 1;
    }
    return Ok(NotFound(NotFoundReason(modname, count)));
  }

  /** The inner loop of `search_plugins` over the two endings. */
  method ProbeEntry(fs: FileSystem, entry: string, modname: string, compile: Compiler) returns (r: Option<Result<Searched, LuaError>>)
    ensures r == ProbeSpec(fs, entry, modname, Suffixes(), compile)
  {
    var dir := JoinPath(entry, "lua");
    var name := Replace(modname, '.', PathSep(false));
    var suffixes := [".lua", PathMacro(true, ["init.lua"], false)];
    var j := 0;
    while j < |suffixes|
      invariant 0 <= j <= |suffixes|
      invariant ProbeSpec(fs, entry, modname, Suffixes(), compile) == ProbeSpec(fs, entry, modname, suffixes[j..], compile)
    {
      assert suffixes[j..][0] == suffixes[j] && suffixes[j..][1..] == suffixes[j + 1..];
      var p := JoinPath(dir, name + suffixes[j]);
      if p in fs.files {
        var loader := compile(p);
        if loader.Err? {
          return Some(Err(loader.error));
        }
        return Some(Ok(Found(loader.value, p)));
      }
      j := j + 1;
    }
    return None;
  }

  /** Lua's length of a sequence table: the first border, the smallest `n` such that `t[n+1]`
      is nil, counting from `n`. */
  function BorderFrom(c: Contents, n: nat): (b: nat)
    requires forall i :: 1 <= i <= n ==> KInt(i) in c && c[KInt(i)] != Nil
    ensures b >= n && !(KInt(b + 1) in c && c[KInt(b + 1)] != Nil)
    ensures forall i :: 1 <= i <= b ==> KInt(i) in c && c[KInt(i)] != Nil
    decreases |c.Keys| - n
  {
    if !(KInt(n + 1) in c && c[KInt(n + 1)] != Nil) then n
    else
      IndexKeysBound(c, n + 1);
      BorderFrom(c, n + 1)
  }

  /** The keys `1..n` of a table are `n` distinct keys. */
  lemma IndexKeysBound(c: Contents, n: nat)
    requires forall i :: 1 <= i <= n ==> KInt(i) in c
    ensures n <= |c.Keys|
  {
    var s := IndexKeys(n);
    SubsetSize(s, c.Keys);
  }

  /** A subset has no more elements than the set holding it. */
  lemma {:induction false} SubsetSize<T>(a: set<T>, b: set<T>)
    requires a <= b
    ensures |a| <= |b|
    decreases |a|
  {
    if a != {} {
      var x :| x in a;
      SubsetSize(a - {x}, b - {x});
    }
  }

  /** The set of the keys `1..n`, which has `n` elements. */
  function IndexKeys(n: nat): (s: set<Key>)
    ensures |s| == n && forall k :: k in s <==> k.KInt? && 1 <= k.i <= n
  {
    if n == 0 then {}
    else
      var s := IndexKeys(n - 1);
      assert KInt(n) !in s;
      s + {KInt(n)}
  }

  /** `t.len()` of the table `t`. */
  function Len(h: Heap, t: TableId): (n: nat)
    requires t in h.tables
    ensures forall i :: 1 <= i <= n ==> Get(h, t, KInt(i)) != Nil
    ensures Get(h, t, KInt(n + 1)) == Nil
  {
    BorderFrom(h.tables[t], 0)
  }

  /** `register`: the searcher (the function handle `searcher`) stored at `len + 1` of
      `package.searchers`. */
  function RegisterSpec(h: Heap, g: TableId, searcher: nat): (r: (Result<(), LuaError>, Heap))
    requires WellFormed(h) && g in h.tables
    ensures WellFormed(r.1) && r.1.tables.Keys == h.tables.Keys
    ensures r.0.Err? ==> r.1 == h
  {
    match PackageTable(h, g, "searchers")
    case Err(e) => (Err(e), h)
    case Ok(s) =>
      SetValid(h, s, KInt(Len(h, s) + 1), Function(searcher));
      (Ok(()), Set(h, s, KInt(Len(h, s) + 1), Function(searcher)))
  }

  /** Registering appends after the searchers already present and changes nothing else. */
  lemma RegisterAppends(h: Heap, g: TableId, searcher: nat)
    requires WellFormed(h) && g in h.tables && PackageTable(h, g, "searchers").Ok?
    ensures var s := PackageTable(h, g, "searchers").value;
      var n := Len(h, s);
      var (r, h') := RegisterSpec(h, g, searcher);
      && r.Ok? && Get(h', s, KInt(n + 1)) == Function(searcher)
      && (forall i :: 1 <= i <= n ==> Get(h', s, KInt(i)) == Get(h, s, KInt(i)) && Get(h', s, KInt(i)) != Nil)
      && (forall t: TableId, k: Key :: (t, k) != (s, KInt(n + 1)) ==> Get(h', t, k) == Get(h, t, k))
  {
  }

  /** On a fresh interpreter, the plugin searcher is the fifth, after the four standard ones. */
  lemma RegisterFresh(searcher: nat)
    ensures var (r, h') := RegisterSpec(InitialHeap(), 0, searcher);
      r.Ok? && Get(h', 4, KInt(5)) == Function(searcher)
      && forall i :: 1 <= i <= 4 ==> Get(h', 4, KInt(i)) == Get(InitialHeap(), 4, KInt(i))
  {
    var h := InitialHeap();
    InitialSearchers();
    SequenceLen(h.tables[4], 0, 4);
    assert PackageTable(h, 0, "searchers") == Ok(4);
  }

  /** A fresh interpreter has the four standard searchers at `1..4`. */
  lemma InitialSearchers()
    ensures var c := InitialHeap().tables[4];
      && (forall i :: 1 <= i <= 4 ==> KInt(i) in c && c[KInt(i)] != Nil)
      && KInt(5) !in c
  {
    var c := InitialHeap().tables[4];
    assert c == StandardSearchers;
  }

  /** The length of a table holding exactly the entries `1..n`, none nil, is `n`. */
  lemma {:induction false} SequenceLen(c: Contents, m: nat, n: nat)
    requires m <= n
    requires forall i :: 1 <= i <= n ==> KInt(i) in c && c[KInt(i)] != Nil
    requires KInt(n + 1) !in c
    ensures BorderFrom(c, m) == n
    decreases n - m
  {
    if m < n {
      SequenceLen(c, m + 1, n);
    }
  }

  /** `register` on the interpreter. */
  method Register(lua: Lua, searcher: nat) returns (r: Result<(), LuaError>)
    requires lua.Valid()
    modifies lua
    ensures lua.Valid() && (r, lua.heap) == RegisterSpec(old(lua.heap), lua.globals, searcher)
  {
    var searchers := PackageTable(lua.heap, lua.globals, "searchers");
    if searchers.Err? {
      return Err(searchers.error);
    }
    var n := Len(lua.heap, searchers.value);
    SetValid(lua.heap, searchers.value, KInt(n + 1), Function(searcher));
    lua.heap := Set(lua.heap, searchers.value, KInt(n + 1), Function(searcher));
    r := Ok(());
  }
}
