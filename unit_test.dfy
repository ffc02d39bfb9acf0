/**
  The stateful helpers of mayatest/mayaunittest.py: the run settings, the
  host's module table and import path, temporary file naming and the plug-in
  bookkeeping of TestCase.

  The file system is the set of paths that exist; `sys.path` is a sequence;
  `sys.modules` maps a module name to the file `inspect.getfile` reports for it,
  or None where that call raises (built-in modules).
*/
module MayaUnitTest {
  import opened Wrappers
  import opened Strings
  import opened Seqs

  // ----- Paths -----

  /** `os.path.join(a, b)` on a POSIX host. */
  function PathJoin(a: string, b: string): (r: string)
    ensures StartsWith(b, "/") ==> r == b
    ensures !StartsWith(b, "/") ==> r == a + b || r == a + "/" + b
  {
    if StartsWith(b, "/") then b
    else if a == "" || a[|a| - 1] == '/' then a + b
    else a + "/" + b
  }

  /** The highest index holding `c`, or -1 (`s.rfind(c)`). */
  function LastIndex(s: string, c: char): (r: int)
    ensures -1 <= r < |s|
    ensures r >= 0 ==> s[r] == c
    ensures forall k :: r < k < |s| ==> s[k] != c
    decreases |s|
  {
    if s == [] then -1
    else if s[|s| - 1] == c then |s| - 1
    else LastIndex(s[..|s| - 1], c)
  }

  /** The last `c` is at `k` when `s[k]` is `c` and nothing after it is. */
  lemma LastIndexIs(s: string, c: char, k: int)
    requires -1 <= k < |s| && (k >= 0 ==> s[k] == c)
    requires forall j :: k < j < |s| ==> s[j] != c
    ensures LastIndex(s, c) == k
  {
  }

  /** Whether `s[from..to]` holds a character other than a dot. */
  predicate HasNonDot(s: string, from: int, to: int)
    requires 0 <= from && to <= |s|
  {
    exists k :: from <= k < to && s[k] != '.'
  }

  /**
    `os.path.splitext(p)` on a POSIX host: the extension starts at the last dot
    of the last path component, unless that component has only dots before it.
  */
  function SplitExt(p: string): (r: (string, string))
    ensures r.0 + r.1 == p
    ensures r.1 != [] ==> r.1[0] == '.' && forall k :: 1 <= k < |r.1| ==> r.1[k] != '.' && r.1[k] != '/'
  {
    var sep := LastIndex(p, '/');
    var dot := LastIndex(p, '.');
    if dot > sep && HasNonDot(p, sep + 1, dot) then
      assert p[..dot] + p[dot..] == p;
      (p[..dot], p[dot..])
    else (p, "")
  }

  /** Hidden files and names without a dot have no extension. */
  lemma SplitExtCases()
    ensures SplitExt("dir/scene.ma") == ("dir/scene", ".ma")
    ensures SplitExt("scene") == ("scene", "")
    ensures SplitExt(".mayarc") == (".mayarc", "")
    ensures SplitExt("a.b/scene") == ("a.b/scene", "")
  {
    var p := "dir/scene.ma";
    LastIndexIs(p, '/', 3);
    LastIndexIs(p, '.', 9);
    assert HasNonDot(p, 4, 9) by { assert p[4] != '.'; }
    assert p[..9] == "dir/scene" && p[9..] == ".ma";
    LastIndexIs("scene", '.', -1);
    LastIndexIs("scene", '/', -1);
    LastIndexIs(".mayarc", '.', 0);
    LastIndexIs(".mayarc", '/', -1);
    LastIndexIs("a.b/scene", '/', 3);
    LastIndexIs("a.b/scene", '.', 1);
  }

  /** A path with a `/` after `dir`: `dir` itself or something inside it, as `shutil.rmtree(dir)` removes. */
  predicate Within(p: string, dir: string) {
    p == dir || StartsWith(p, dir + "/")
  }

  /** The existing paths once the tree at `dir` is removed (`shutil.rmtree`). */
  function RemoveTree(paths: set<string>, dir: string): (r: set<string>)
    ensures r <= paths && dir !in r
    ensures forall p :: p in paths ==> (p in r <==> !Within(p, dir))
  {
    set p | p in paths && !Within(p, dir)
  }

  /**
    The existing paths after the clean-up of `delete_temp_files`: each recorded
    file is removed, then the temporary directory's tree if it still exists.
  */
  function AfterCleanUp(paths: set<string>, files: seq<string>, tempDir: string): (r: set<string>)
    ensures r <= paths
    ensures forall f :: f in files ==> f !in r
    ensures tempDir !in r
    ensures forall p :: p in paths && p !in files && !Within(p, tempDir) ==> p in r
  {
    var rest := paths - Elems(files);
    if tempDir in rest then RemoveTree(rest, tempDir) else rest
  }

  // ----- Settings -----

  /** Where the temporary directory of a run is: `<system temp>/mayaunittest/<run id>`. */
  function TempDirFor(systemTemp: string, runId: string): string {
    PathJoin(PathJoin(systemTemp, "mayaunittest"), runId)
  }

  /** Two runs with different ids get different temporary directories, so concurrent runs do not collide. */
  lemma TempDirsDistinct(systemTemp: string, id1: string, id2: string)
    requires !StartsWith(id1, "/") && !StartsWith(id2, "/")
    requires id1 != id2
    ensures TempDirFor(systemTemp, id1) != TempDirFor(systemTemp, id2)
  {
    var base := PathJoin(systemTemp, "mayaunittest");
    assert !StartsWith("mayaunittest", "/");
    assert base != "" && base[|base| - 1] != '/';
    var d1 := TempDirFor(systemTemp, id1);
    var d2 := TempDirFor(systemTemp, id2);
    assert d1 == base + "/" + id1 && d2 == base + "/" + id2;
    assert d1[|base| + 1..] == id1 && d2[|base| + 1..] == id2;
  }

  /** The options of a run (class Settings). */
  class Settings {
    var tempDir: string
    var deleteFiles: bool
    var bufferOutput: bool
    var fileNew: bool

    /** The class attributes' initial values; the system temp dir and the uuid are parameters. */
    constructor(systemTemp: string, runId: string)
      ensures tempDir == TempDirFor(systemTemp, runId)
      ensures deleteFiles && !bufferOutput && fileNew
    {
      tempDir := TempDirFor(systemTemp, runId);
      deleteFiles := true;
      bufferOutput := false;
      fileNew := true;
    }

    /** `set_temp_dir`: only an existing directory is accepted. */
    method SetTempDir(existing: set<string>, directory: string) returns (r: Outcome<Exception>)
      modifies this`tempDir
      ensures directory in existing ==> r == Done && tempDir == directory
      ensures directory !in existing ==> r == Raised(RuntimeError(directory + " does not exist.")) && tempDir == old(tempDir)
    {
      if directory in existing {
        tempDir := directory;
        r := Done;
      } else {
        r := Raised(RuntimeError(directory + " does not exist."));
      }
    }

    /** `set_delete_files`. */
    method SetDeleteFiles(value: bool)
      modifies this`deleteFiles
      ensures deleteFiles == value
    {
      deleteFiles := value;
    }

    /** `set_buffer_output`. */
    method SetBufferOutput(value: bool)
      modifies this`bufferOutput
      ensures bufferOutput == value
    {
      bufferOutput := value;
    }

    /** `set_file_new`. */
    method SetFileNew(value: bool)
      modifies this`fileNew
      ensures fileNew == value
    {
      fileNew := value;
    }
  }

  // ----- The host process -----

  /** Whether `reload_modules(userPath)` drops a module whose file is `file`. */
  predicate Reloads(userPath: string, file: Option<string>) {
    userPath != "" && file.Some? && StartsWith(NormalizePath(file.value), NormalizePath(userPath))
  }

  /** The module table once `reload_modules(userPath)` has run. */
  function AfterReload(userPath: string, modules: map<string, Option<string>>): (r: map<string, Option<string>>)
    ensures forall n :: n in r <==> n in modules && !Reloads(userPath, modules[n])
    ensures forall n :: n in r ==> r[n] == modules[n]
    ensures userPath == "" ==> r == modules
  {
    map n | n in modules && !Reloads(userPath, modules[n]) :: modules[n]
  }

  /** Modules without a file (built-ins) are never dropped. */
  lemma BuiltinsSurviveReload(userPath: string, modules: map<string, Option<string>>, n: string)
    requires n in modules && modules[n].None?
    ensures n in AfterReload(userPath, modules)
  {
  }

  /** Reloading twice drops nothing more than reloading once. */
  lemma ReloadIdempotent(userPath: string, modules: map<string, Option<string>>)
    ensures AfterReload(userPath, AfterReload(userPath, modules)) == AfterReload(userPath, modules)
  {
  }

  /** The user path is compared case-folded and with forward slashes: normalising it first changes nothing. */
  lemma ReloadIgnoresCaseAndSlashes(userPath: string, modules: map<string, Option<string>>)
    ensures AfterReload(NormalizePath(userPath), modules) == AfterReload(userPath, modules)
  {
    NormalizePathIdempotent(userPath);
    forall f: Option<string> ensures Reloads(NormalizePath(userPath), f) == Reloads(userPath, f) {
    }
  }

  /**
    The module table once a lookup has imported the modules `imported` names (by
    name, with their files): a module already in the table is reused as it is,
    the others are added.
  */
  function AfterImport(modules: map<string, Option<string>>, imported: map<string, Option<string>>): (r: map<string, Option<string>>)
    ensures forall n :: n in r <==> n in modules || n in imported
    ensures forall n :: n in modules ==> r[n] == modules[n]
    ensures forall n :: n in r && n !in modules ==> r[n] == imported[n]
  {
    map n | n in modules.Keys + imported.Keys :: if n in modules then modules[n] else imported[n]
  }

  /**
    What reloading is for: a module under the user path that a later lookup
    imports again is taken from that import, not from the stale table, and one
    that is not imported again stays gone.
  */
  lemma ReloadedModulesImportedAfresh(userPath: string, modules: map<string, Option<string>>,
                                      imported: map<string, Option<string>>, n: string)
    requires n in modules && Reloads(userPath, modules[n])
    ensures var r := AfterImport(AfterReload(userPath, modules), imported);
      (n in r <==> n in imported) && (n in imported ==> r[n] == imported[n])
  {
  }

  /**
    `sys.path` once `TestLoader.discover` has run from each directory in turn:
    a directory not yet on it goes to its front, and nothing takes it off again.
  */
  function Discovered(dirs: seq<string>, path: seq<string>): (r: seq<string>)
    ensures forall x :: x in r <==> x in path || x in dirs
    ensures |path| <= |r| && forall i :: 0 <= i < |path| ==> r[|r| - |path| + i] == path[i]
    decreases |dirs|
  {
    if dirs == [] then path
    else
      var d := dirs[|dirs| - 1];
      var p := Discovered(dirs[..|dirs| - 1], path);
      assert dirs == dirs[..|dirs| - 1] + [d];
      if d in p then p else [d] + p
  }

  /** Discovering from one directory puts it in front unless it is already on the path. */
  lemma DiscoveredOne(d: string, path: seq<string>)
    ensures Discovered([d], path) == if d in path then path else [d] + path
  {
    assert [d][..0] == [];
  }

  /** The file system, import path, module table and loaded plug-ins of the host process. */
  class Host {
    var paths: set<string>
    var sysPath: seq<string>
    var modules: map<string, Option<string>>
    var loadedPlugins: set<string>

    constructor(paths: set<string>, sysPath: seq<string>, modules: map<string, Option<string>>)
      ensures this.paths == paths && this.sysPath == sysPath && this.modules == modules
      ensures loadedPlugins == {}
    {
      this.paths := paths;
      this.sysPath := sysPath;
      this.modules := modules;
      loadedPlugins := {};
    }

    /** `add_to_path`: an existing path that is not yet on `sys.path` goes to its front. */
    method AddToPath(path: string) returns (added: bool)
      modifies this`sysPath
      ensures added <==> path in paths && path !in old(sysPath)
      ensures added ==> sysPath == [path] + old(sysPath)
      ensures !added ==> sysPath == old(sysPath)
    {
      if path in paths && path !in sysPath {
        sysPath := [path] + sysPath;
        return true;
      }
      return false;
    }

    /** `reload_modules`: drop every module whose file lies under the user path. */
    method ReloadModules(userPath: string)
      modifies this`modules
      ensures modules == AfterReload(userPath, old(modules))
    {
      if userPath == "" {
        return;
      }
      var user := NormalizePath(userPath);
      var items := modules;
      var pending := items.Keys;
      while pending != {}
        invariant pending <= items.Keys
        invariant forall n :: n in modules <==> n in items && (n in pending || !Reloads(userPath, items[n]))
        invariant forall n :: n in modules ==> modules[n] == items[n]
        decreases |pending|
      {
        var name :| name in pending;
        match items[name] {
          case None =>
          case Some(file) =>
            var moduleFile := NormalizePath(file);
            if StartsWith(moduleFile, user) {
              modules := modules - {name};
            }
        }
        pending := pending - {name};
      }
      assert modules == AfterReload(userPath, items);
    }

    /**
      `get_tests`: refuses a missing directory list. When one test is named, the
      directories are put on `sys.path` for the lookup and taken off again; when
      none is, each directory is discovered, which leaves it on `sys.path`. The
      lookup imports the modules `imported` names; the suite it fills is not
      modelled.
    */
    method GetTests(directories: Option<seq<string>>, test: string, imported: map<string, Option<string>>)
      returns (r: Outcome<Exception>)
      modifies this`sysPath, this`modules
      ensures directories.None? ==>
        r == Raised(ValueError("directories must be specified.")) && sysPath == old(sysPath) && modules == old(modules)
      ensures directories.Some? ==> r == Done && modules == AfterImport(old(modules), imported)
      ensures directories.Some? && test != "" ==> sysPath == old(sysPath)
      ensures directories.Some? && test == "" ==> sysPath == Discovered(directories.value, old(sysPath))
    {
      if directories.None? {
        return Raised(ValueError("directories must be specified."));
      }
      var dirs := directories.value;
      ghost var orig := sysPath;
      if test != "" {
        var added: seq<string> := [];
        for k := 0 to |dirs|
          invariant sysPath == Reverse(added) + orig
          invariant NoDup(added)
          invariant forall x :: x in added ==> x !in orig
          invariant modules == old(modules)
        {
          var ok := AddToPath(dirs[k]);
          if ok {
            ReverseMembers(added);
            assert (added + [dirs[k]])[..|added|] == added;
            added := added + [dirs[k]];
          }
        }
        modules := AfterImport(modules, imported);
        for i := 0 to |added|
          invariant sysPath == Reverse(added[i..]) + orig
          invariant modules == AfterImport(old(modules), imported)
        {
          var rest := added[i + 1..];
          assert added[i..] == [added[i]] + rest;
          ReverseCons(added[i], rest);
          ReverseMembers(rest);
          RemoveFirstAfter(Reverse(rest), added[i], orig);
          sysPath := RemoveFirst(sysPath, added[i]);
        }
      } else {
        // Nothing was added by add_to_path here, so nothing is removed afterwards.
        for k := 0 to |dirs|
          invariant sysPath == Discovered(dirs[..k], orig)
          invariant modules == old(modules)
        {
          assert dirs[..k + 1][..k] == dirs[..k];
          if dirs[k] !in sysPath {
            sysPath := [dirs[k]] + sysPath;
          }
        }
        assert dirs[..|dirs|] == dirs;
        modules := AfterImport(modules, imported);
      }
      r := Done;
    }
  }

  // ----- TestCase -----

  /** The class attribute `plugins_loaded`: a set at first, a list once `unload_plugins` has run. */
  datatype Plugins = PluginSet(names: set<string>) | PluginList(items: seq<string>) {
    function Members(): (s: set<string>)
      ensures forall x :: x in s <==> (if PluginSet? then x in names else x in items)
    {
      if PluginSet? then names else Elems(items)
    }
  }

  /** The message Python gives when `add` is called on a list. */
  const LIST_HAS_NO_ADD := "'list' object has no attribute 'add'"

  /** The `index`-th name `get_temp_filename` tries: no counter first, then 1, 2, ... before the extension. */
  function Candidate(dir: string, base: string, ext: string, index: nat): string {
    if index == 0 then dir + "/" + base + ext else dir + "/" + base + Decimal(index) + ext
  }

  /** Different counters give different names. */
  lemma CandidateInjective(dir: string, base: string, ext: string, i: nat, j: nat)
    requires Candidate(dir, base, ext, i) == Candidate(dir, base, ext, j)
    ensures i == j
  {
    var pre := dir + "/" + base;
    var a := Candidate(dir, base, ext, i);
    if i != 0 && j != 0 {
      assert a[|pre|..|a| - |ext|] == Decimal(i);
      assert a[|pre|..|a| - |ext|] == Decimal(j);
      DecimalInjective(i, j);
    }
  }

  /** The names tried before the `count`-th. */
  function Tried(dir: string, base: string, ext: string, count: nat): set<string> {
    set j: nat | j < count :: Candidate(dir, base, ext, j)
  }

  /** The next name to try has not been tried, so each pass of the loop meets a new existing path. */
  lemma NextUntried(dir: string, base: string, ext: string, count: nat)
    ensures Candidate(dir, base, ext, count) !in Tried(dir, base, ext, count)
    ensures Tried(dir, base, ext, count + 1) == Tried(dir, base, ext, count) + {Candidate(dir, base, ext, count)}
  {
    if Candidate(dir, base, ext, count) in Tried(dir, base, ext, count) {
      var j: nat :| j < count && Candidate(dir, base, ext, j) == Candidate(dir, base, ext, count);
      CandidateInjective(dir, base, ext, j, count);
    }
  }

  /** The loop of `get_temp_filename`: the first candidate name that does not exist. */
  method FreeCandidate(paths: set<string>, dir: string, base: string, ext: string) returns (path: string)
    ensures path !in paths
    ensures exists count: nat :: (path == Candidate(dir, base, ext, count)
      && forall j :: 0 <= j < count ==> Candidate(dir, base, ext, j) in paths)
  {
    path := dir + "/" + base + ext;
    var count := 0;
    while path in paths
      invariant path == Candidate(dir, base, ext, count)
      invariant forall j :: 0 <= j < count ==> Candidate(dir, base, ext, j) in paths
      decreases |paths - Tried(dir, base, ext, count)|
    {
      NextUntried(dir, base, ext, count);
      assert Tried(dir, base, ext, count) + {path} <= paths;
      assert paths - Tried(dir, base, ext, count + 1) == (paths - Tried(dir, base, ext, count)) - {path};
      count := count + 1;
      path := dir + "/" + base + Decimal(count) + ext;
    }
  }

  /** The first name of a temporary file is the file name under the temporary directory. */
  lemma FirstCandidateIsFileName(dir: string, fileName: string)
    ensures Candidate(dir, SplitExt(fileName).0, SplitExt(fileName).1, 0) == dir + "/" + fileName
  {
  }

  /** TestCase's class-level bookkeeping: the temporary files it handed out and the plug-ins it loaded. */
  class TestCaseClass {
    var filesCreated: seq<string>
    /** The attribute `delete_temp_files` assigns; None until it first runs. */
    var filesCreate: Option<seq<string>>
    var pluginsLoaded: Plugins

    constructor()
      ensures filesCreated == [] && filesCreate == None && pluginsLoaded == PluginSet({})
    {
      filesCreated := [];
      filesCreate := None;
      pluginsLoaded := PluginSet({});
    }

    /**
      `get_temp_filename`: the temporary directory is created if needed; the
      result is the first candidate name that does not exist, and it is recorded
      in `files_created`.
    */
    method GetTempFilename(settings: Settings, host: Host, fileName: string) returns (path: string)
      modifies this`filesCreated, host`paths
      ensures host.paths == old(host.paths) + {settings.tempDir}
      ensures path !in host.paths
      ensures exists count: nat :: (path == Candidate(settings.tempDir, SplitExt(fileName).0, SplitExt(fileName).1, count)
        && forall j :: 0 <= j < count ==> Candidate(settings.tempDir, SplitExt(fileName).0, SplitExt(fileName).1, j) in host.paths)
      ensures filesCreated == old(filesCreated) + [path]
    {
      var tempDir := settings.tempDir;
      if tempDir !in host.paths {
        host.paths := host.paths + {tempDir};
      }
      var (baseName, ext) := SplitExt(fileName);
      path := FreeCandidate(host.paths, tempDir, baseName, ext);
      filesCreated := filesCreated + [path];
    }

    /**
      `delete_temp_files` as written: the recorded files and the temporary
      directory are removed, but the list that is reset is a new attribute
      `files_create`; `files_created` keeps every name.
    */
    method DeleteTempFiles(settings: Settings, host: Host)
      modifies this`filesCreate, host`paths
      ensures settings.deleteFiles ==> filesCreate == Some([])
      ensures settings.deleteFiles ==>
        host.paths == AfterCleanUp(old(host.paths), filesCreated, settings.tempDir)
      ensures !settings.deleteFiles ==> filesCreate == old(filesCreate) && host.paths == old(host.paths)
    {
      if settings.deleteFiles {
        RemoveFiles(host);
        filesCreate := Some([]);
        if settings.tempDir in host.paths {
          host.paths := RemoveTree(host.paths, settings.tempDir);
        }
      }
    }

    /** `delete_temp_files` as intended: the same removals, and `files_created` is emptied. */
    method DeleteTempFilesFixed(settings: Settings, host: Host)
      modifies this`filesCreated, host`paths
      ensures settings.deleteFiles ==> filesCreated == []
      ensures settings.deleteFiles ==>
        host.paths == AfterCleanUp(old(host.paths), old(filesCreated), settings.tempDir)
      ensures !settings.deleteFiles ==> filesCreated == old(filesCreated) && host.paths == old(host.paths)
    {
      if settings.deleteFiles {
        RemoveFiles(host);
        filesCreated := [];
        if settings.tempDir in host.paths {
          host.paths := RemoveTree(host.paths, settings.tempDir);
        }
      }
    }

    /** The loop over `files_created` removing each one that exists. */
    method RemoveFiles(host: Host)
      modifies host`paths
      ensures host.paths == old(host.paths) - Elems(filesCreated)
    {
      for i := 0 to |filesCreated|
        invariant host.paths == old(host.paths) - Elems(filesCreated[..i])
      {
        var f := filesCreated[i];
        if f in host.paths {
          host.paths := host.paths - {f};
        }
        ElemsStep(filesCreated, i);
      }
      assert filesCreated[..|filesCreated|] == filesCreated;
    }

    /** `load_plugin`: the host loads the plug-in, then it is added to `plugins_loaded`, which fails once that is a list. */
    method LoadPlugin(host: Host, plugin: string) returns (r: Outcome<Exception>)
      modifies this`pluginsLoaded, host`loadedPlugins
      ensures host.loadedPlugins == old(host.loadedPlugins) + {plugin}
      ensures old(pluginsLoaded).PluginSet? ==> r == Done && pluginsLoaded == PluginSet(old(pluginsLoaded).names + {plugin})
      ensures old(pluginsLoaded).PluginList? ==> r == Raised(AttributeError(LIST_HAS_NO_ADD)) && pluginsLoaded == old(pluginsLoaded)
    {
      host.loadedPlugins := host.loadedPlugins + {plugin};
      match pluginsLoaded
      case PluginSet(names) =>
        pluginsLoaded := PluginSet(names + {plugin});
        r := Done;
      case PluginList(_) =>
        r := Raised(AttributeError(LIST_HAS_NO_ADD));
    }

    /** `unload_plugins` as written: every recorded plug-in is unloaded and the record becomes an empty list. */
    method UnloadPlugins(host: Host)
      modifies this`pluginsLoaded, host`loadedPlugins
      ensures host.loadedPlugins == old(host.loadedPlugins) - old(pluginsLoaded).Members()
      ensures pluginsLoaded == PluginList([])
    {
      UnloadAll(host);
      pluginsLoaded := PluginList([]);
    }

    /** `unload_plugins` as intended: the record becomes an empty set, so plug-ins can be loaded again. */
    method UnloadPluginsFixed(host: Host)
      modifies this`pluginsLoaded, host`loadedPlugins
      ensures host.loadedPlugins == old(host.loadedPlugins) - old(pluginsLoaded).Members()
      ensures pluginsLoaded == PluginSet({})
    {
      UnloadAll(host);
      pluginsLoaded := PluginSet({});
    }

    /** The loop of `unload_plugins` calling `cmds.unloadPlugin` on each recorded plug-in. */
    method UnloadAll(host: Host)
      modifies host`loadedPlugins
      ensures host.loadedPlugins == old(host.loadedPlugins) - pluginsLoaded.Members()
    {
      var pending := pluginsLoaded.Members();
      while pending != {}
        invariant pending <= pluginsLoaded.Members()
        invariant host.loadedPlugins == old(host.loadedPlugins) - (pluginsLoaded.Members() - pending)
        decreases |pending|
      {
        var plugin :| plugin in pending;
        host.loadedPlugins := host.loadedPlugins - {plugin};
        pending := pending - {plugin};
      }
    }

    /** `tearDownClass`: delete the temporary files, then unload the plug-ins. */
    method TearDownClass(settings: Settings, host: Host)
      modifies this`filesCreate, this`pluginsLoaded, host`paths, host`loadedPlugins
      ensures settings.deleteFiles ==> filesCreate == Some([])
      ensures pluginsLoaded == PluginList([])
      ensures host.loadedPlugins == old(host.loadedPlugins) - old(pluginsLoaded).Members()
      ensures settings.deleteFiles ==>
        host.paths == AfterCleanUp(old(host.paths), filesCreated, settings.tempDir)
      ensures !settings.deleteFiles ==> filesCreate == old(filesCreate) && host.paths == old(host.paths)
    {
      DeleteTempFiles(settings, host);
      UnloadPlugins(host);
    }
  }

  // ----- What the two defects do -----

  /** Running a test case class a second time in the same session: its first `load_plugin` raises. */
  method SecondRunCannotLoadPlugins() returns (r: Outcome<Exception>)
    ensures r == Raised(AttributeError(LIST_HAS_NO_ADD))
  {
    var settings := new Settings("/tmp", "run");
    var host := new Host({}, [], map[]);
    var testCase := new TestCaseClass();
    var first := testCase.LoadPlugin(host, "matrixNodes");
    testCase.TearDownClass(settings, host);
    r := testCase.LoadPlugin(host, "matrixNodes");
  }

  /** With the fixed unload, the second run loads its plug-in. */
  method SecondRunLoadsPluginsWhenFixed() returns (r: Outcome<Exception>)
    ensures r == Done
  {
    var host := new Host({}, [], map[]);
    var testCase := new TestCaseClass();
    var first := testCase.LoadPlugin(host, "matrixNodes");
    testCase.UnloadPluginsFixed(host);
    r := testCase.LoadPlugin(host, "matrixNodes");
  }

  /** After the clean-up, `files_created` still lists the deleted file. */
  method DeletedFilesStayRecorded() returns (stale: bool)
    ensures stale
  {
    var settings := new Settings("/tmp", "run");
    var host := new Host({"/tmp"}, [], map[]);
    var testCase := new TestCaseClass();
    var path := testCase.GetTempFilename(settings, host, "scene.ma");
    testCase.DeleteTempFiles(settings, host);
    stale := path in testCase.filesCreated;
  }

  /** With the fixed clean-up, nothing stays recorded. */
  method DeletedFilesForgottenWhenFixed() returns (cleared: bool)
    ensures cleared
  {
    var settings := new Settings("/tmp", "run");
    var host := new Host({"/tmp"}, [], map[]);
    var testCase := new TestCaseClass();
    var path := testCase.GetTempFilename(settings, host, "scene.ma");
    testCase.DeleteTempFilesFixed(settings, host);
    cleared := testCase.filesCreated == [];
  }
}
