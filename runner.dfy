/**
  The "run selected" action of the runner window
  (MayaTestRunnerDialog.run_selected_tests in mayatest/mayaunittestui.py), on the
  state it touches: the modules under the module path are reloaded, the
  selection is pruned, and each kept path is looked up with the module path on
  `sys.path` for the lookup only. Which modules a lookup imports depends on the
  files on disk, so it is the parameter `importedBy`.
*/
module Runner {
  import opened Wrappers
  import opened PathSelection
  import opened MayaUnitTest

  /**
    `sys.path` after `get_tests` has looked up each path of `tests` in turn in
    `dir`: only an empty path, which is discovered instead, leaves `dir` on it.
  */
  function SysPathAfterLookups(dir: string, tests: seq<string>, path: seq<string>): (r: seq<string>)
    ensures forall x :: x in r <==> x in path || (x == dir && "" in tests)
    ensures |path| <= |r| && forall i :: 0 <= i < |path| ==> r[|r| - |path| + i] == path[i]
    decreases |tests|
  {
    if tests == [] then path
    else
      var last := tests[|tests| - 1];
      var before := SysPathAfterLookups(dir, tests[..|tests| - 1], path);
      assert tests == tests[..|tests| - 1] + [last];
      if last != "" || dir in before then before
      else
        [dir] + before
  }

  /** Looking up named tests only leaves `sys.path` as it was. */
  lemma {:induction false} NamedLookupsKeepSysPath(dir: string, tests: seq<string>, path: seq<string>)
    requires "" !in tests
    ensures SysPathAfterLookups(dir, tests, path) == path
    decreases |tests|
  {
    if tests != [] {
      assert tests[..|tests| - 1] <= tests;
      NamedLookupsKeepSysPath(dir, tests[..|tests| - 1], path);
    }
  }

  /**
    The module table after each path of `tests` has been looked up in turn: the
    modules already there are kept, and every other one was imported by one of
    the lookups.
  */
  function ModulesAfterLookups(tests: seq<string>, importedBy: string -> map<string, Option<string>>,
                               modules: map<string, Option<string>>): (r: map<string, Option<string>>)
    ensures forall n :: n in modules ==> n in r && r[n] == modules[n]
    ensures forall k, n :: 0 <= k < |tests| && n in importedBy(tests[k]) ==> n in r
    ensures forall n :: n in r && n !in modules ==>
      exists k :: 0 <= k < |tests| && n in importedBy(tests[k]) && r[n] == importedBy(tests[k])[n]
    decreases |tests|
  {
    if tests == [] then modules
    else
      var firsts := tests[..|tests| - 1];
      var last := tests[|tests| - 1];
      var before := ModulesAfterLookups(firsts, importedBy, modules);
      var r := AfterImport(before, importedBy(last));
      assert forall k :: 0 <= k < |firsts| ==> firsts[k] == tests[k];
      r
  }

  /**
    After a run, a module the reload dropped is in the table only if one of the
    lookups imported it again, and it then holds what that import loaded.
  */
  lemma NoStaleModuleAfterRun(userPath: string, modules: map<string, Option<string>>, tests: seq<string>,
                              importedBy: string -> map<string, Option<string>>, n: string)
    requires n in modules && Reloads(userPath, modules[n])
    ensures var r := ModulesAfterLookups(tests, importedBy, AfterReload(userPath, modules));
      n in r ==> exists k :: 0 <= k < |tests| && n in importedBy(tests[k]) && r[n] == importedBy(tests[k])[n]
  {
  }

  /** One more lookup, of `tests[k]`, on top of the first `k`. */
  lemma LookupStep(dir: string, tests: seq<string>, k: nat, importedBy: string -> map<string, Option<string>>,
                   path: seq<string>, modules: map<string, Option<string>>)
    requires k < |tests|
    ensures var before := SysPathAfterLookups(dir, tests[..k], path);
      SysPathAfterLookups(dir, tests[..k + 1], path) == if tests[k] != "" then before else Discovered([dir], before)
    ensures ModulesAfterLookups(tests[..k + 1], importedBy, modules)
      == AfterImport(ModulesAfterLookups(tests[..k], importedBy, modules), importedBy(tests[k]))
  {
    assert tests[..k + 1][..k] == tests[..k];
    DiscoveredOne(dir, SysPathAfterLookups(dir, tests[..k], path));
  }

  /** Returns the paths whose tests are looked up, in order. */
  method RunSelectedTests(host: Host, modulePath: string, selected: seq<string>,
                          importedBy: string -> map<string, Option<string>>) returns (testPaths: seq<string>)
    modifies host`modules, host`sysPath
    ensures testPaths == Pruned(selected, selected)
    ensures host.modules == ModulesAfterLookups(testPaths, importedBy, AfterReload(modulePath, old(host.modules)))
    ensures host.sysPath == SysPathAfterLookups(modulePath, testPaths, old(host.sysPath))
  {
    host.ReloadModules(modulePath);
    if selected == [] {
      return [];
    }
    testPaths := PrunePaths(selected);
    ghost var reloaded := host.modules;
    for k := 0 to |testPaths|
      invariant host.modules == ModulesAfterLookups(testPaths[..k], importedBy, reloaded)
      invariant host.sysPath == SysPathAfterLookups(modulePath, testPaths[..k], old(host.sysPath))
    {
      LookupStep(modulePath, testPaths, k, importedBy, old(host.sysPath), reloaded);
      var found := host.GetTests(Some([modulePath]), testPaths[k], importedBy(testPaths[k]));
    }
    assert testPaths[..|testPaths|] == testPaths;
  }
}
