# mayatest in Dafny

A verified model of the logic at the core of mayatest, a unit-test runner for
Autodesk Maya:

- **Test tree** (`test_tree.dfy`, `test_status.dfy`). This covers the runner window's tree
  of tests, which maintains parent/child links (BaseTreeNode). It covers the status a
  node reports, which merges its children's statuses bottom-up:
  error beats fail, and fail beats the most recent success or skip. It also covers the
  status write of the tree model's `setData`, which climbs from a test up to
  the root.
- **Selection pruning** (`path_selection.dfy`, `runner.dfy`). When "run
  selected" runs, a selected test path is dropped when one of its dotted
  ancestors is selected too.
- **Output colouring** (`capture_stream.dfy`). This is the stream the test output is
  written to, which colours each write by the literal prefix it starts with
  ("ok", "FAIL", "ERROR" or "skipped"), so "okay" counts as "ok".
- **Unit-test helpers** (`unit_test.dfy`). These are the run settings, the
  `sys.path` and `sys.modules` bookkeeping, the naming of temporary files, and
  TestCase's record of temporary files and loaded plug-ins.

The BaseTreeNode objects are nodes of one class `TestTree.TestTree`. Each
object field (`_parent`, `children`, `status`, `tool_tip`, the test's name
and class) is a map from node id to value. Ids follow allocation order. A
parent exists before its child, so every parent link points to a smaller id.
That order is what bounds the recursion of `remove` (downwards) and of `setData`
(upwards). `get_status` is a recursive function on an immutable
`TestStatus.TestNode` value. The store produces that value for any node with
`Snapshot`.

The host is modelled as the class `MayaUnitTest.Host`:
- The file system is the set of paths that exist.
- `sys.path` is a sequence.
- `sys.modules` maps each module name to the file `inspect.getfile` reports. For modules where that call raises, the entry is None.

TestCase's class attributes are fields of `MayaUnitTest.TestCaseClass`. The
Settings class attributes are fields of `MayaUnitTest.Settings`. The
system temporary directory and the uuid of a run are parameters.

## Model

| member | source | states |
|---|---|---|
| TestStatus.Status.Code | mayatest/mayaunittestui.py:338-345 | the numbers of not run, success, fail, error and skipped are 0..4, and only not run has 0 |
| TestStatus.FromCode | mayatest/mayaunittestui.py:338-345 | a number stands for a status exactly when it is between 0 and 4 |
| TestStatus.CodeRoundTrip | mayatest/mayaunittestui.py:338-345 | every status has its own number and every number 0..4 names one status |
| TestStatus.ChildStatuses | mayatest/mayaunittestui.py:401-402 | the children's reported statuses, one per child, in order |
| TestStatus.GetStatus | mayatest/mayaunittestui.py:388-412 | an import failure reports error, a leaf its stored status, and a suite not run or the status of one of its children; its full behaviour is stated by the lemmas below |
| TestStatus.Step | mayatest/mayaunittestui.py:406-411 | one pass of the loop for a child that is not an error keeps the accumulated status or takes the child's |
| TestStatus.MergeFrom | mayatest/mayaunittestui.py:400-412 | the loop never invents a status: its result is the starting status or one of the children's |
| TestStatus.MergeWithError | mayatest/mayaunittestui.py:403-405 | an error anywhere in the children's statuses makes the loop return error |
| TestStatus.MergeWithFail | mayatest/mayaunittestui.py:406-411 | with no error, a fail before or among the statuses makes the result fail |
| TestStatus.MergeAllNotRun | mayatest/mayaunittestui.py:400-412 | statuses that are all not run leave the accumulated result unchanged |
| TestStatus.MergeLastVerdict | mayatest/mayaunittestui.py:408-412 | with no fail or error, the result is the last success or skipped status |
| TestStatus.LeafStatus | mayatest/mayaunittestui.py:396-399 | an import failure reports error; any other childless node reports its stored status |
| TestStatus.ErrorDominates | mayatest/mayaunittestui.py:401-405 | one erroring child makes the parent error, whatever its siblings report |
| TestStatus.FailOverridesVerdicts | mayatest/mayaunittestui.py:406-411 | a failing child and no erroring one make the parent fail; a later success or skip never overwrites it |
| TestStatus.LastVerdictWins | mayatest/mayaunittestui.py:408-412 | without fail or error children, the parent reports its last success-or-skipped child |
| TestStatus.AllNotRun | mayatest/mayaunittestui.py:400-412 | a parent whose children have all not run has not run |
| TestStatus.AllSkipped | mayatest/mayaunittestui.py:410-412 | a parent whose children were all skipped reports skipped |
| TestStatus.InnerStatusUnread | mayatest/mayaunittestui.py:398-400 | the status stored on a node with children never affects what it reports |
| TestTree.LineageIsAncestorsBelowRoot | mayatest/mayaunittestui.py:475-479 | the nodes the status write visits are exactly the node and its ancestors, without the root |
| TestTree.Lineage | mayatest/mayaunittestui.py:475-479 | the nodes the status write visits; `LineageBelow` and `LineageIsAncestorsBelowRoot` state what they are |
| TestTree.LineageBelow | mayatest/mayaunittestui.py:475-479 | the status write visits no node newer than the one it starts from, which bounds the recursion |
| TestTree.Appended | mayatest/mayaunittestui.py:60-65 | `add_child` gives the old children plus the new one, each old child keeping its row |
| TestTree.Odds | mayatest/mayaunittestui.py:73-74 | the children left after the removal loop: half of the list, the odd positions |
| TestTree.OddsLoopStep | mayatest/mayaunittestui.py:73-74 | pass `i` of the removal loop meets the original child at `2 * i`; popping it yields the list of pass `i + 1` |
| TestTree.PendingShape | mayatest/mayaunittestui.py:73-74 | the removal loop runs while `2 * i` is a position of the original list and ends with the odd positions left |
| TestTree.AppendedOnce | mayatest/mayaunittestui.py:60-65 | after `add_child(c)`, `c` is a child and occurs once, and a duplicate-free list stays so |
| TestTree.LinkedAddChild | mayatest/mayaunittestui.py:53-58 | a new node attached to an existing parent keeps parent links and child lists consistent |
| TestTree.LinkedAddRoot | mayatest/mayaunittestui.py:53-58 | a new node without a parent keeps the links consistent |
| TestTree.LinkedDetach | mayatest/mayaunittestui.py:69-72 | a child is found in its parent's list, and popping it there while dropping its parent keeps the links consistent |
| TestTree.TestTree.constructor | mayatest/mayaunittestui.py:53-58 | the root: one node, no parent, no children, status not run |
| TestTree.TestTree.AddChild | mayatest/mayaunittestui.py:60-65 | the child list becomes `Appended(children, c)`, and no other list changes |
| TestTree.TestTree.NewNode | mayatest/mayaunittestui.py:53-58 | a new node with status not run, listed last by its parent, if any; the tree stays consistent |
| TestTree.TestTree.Parent | mayatest/mayaunittestui.py:92-94 | the parent, if any; it is older than the node and lists it |
| TestTree.TestTree.Child | mayatest/mayaunittestui.py:76-86 | a child exactly for rows from `-len` to `len - 1`: `children[row]`, with negative rows counting from the end; otherwise None |
| TestTree.TestTree.ChildCount | mayatest/mayaunittestui.py:88-90 | the rows `child` answers for are exactly those from minus the count to the count minus one |
| TestTree.TestTree.Row | mayatest/mayaunittestui.py:96-100 | 0 without a parent; otherwise the first position of the node in its parent's list, and None where `index` raises |
| TestTree.TestTree.RowIsIndex | mayatest/mayaunittestui.py:76-100 | in a consistent tree the row of the `i`-th child is `i`, and `child(i)` gives that child back |
| TestTree.TestTree.ChildrenNewer | mayatest/mayaunittestui.py:53-58 | every child exists and is newer than its parent |
| TestTree.TestTree.Detach | mayatest/mayaunittestui.py:69-72 | the node is popped at its row from its parent's list and its parent is dropped; nothing else changes |
| TestTree.TestTree.Remove | mayatest/mayaunittestui.py:67-74 | as written: the node is detached; the children at even positions are removed and detached, and those at odd positions stay its children; no older node changes |
| TestTree.TestTree.RemoveChildren | mayatest/mayaunittestui.py:73-74 | the loop over the live child list leaves the odd positions, with every even-position child detached |
| TestTree.TestTree.RemovePass | mayatest/mayaunittestui.py:73-74 | one pass removes the child at the current position and pops it from the list |
| TestTree.TestTree.RemoveAll | mayatest/mayaunittestui.py:67-74 | as intended: the node is detached and every child is removed and detached; no older node changes |
| TestTree.TestTree.RemoveAllChildren | mayatest/mayaunittestui.py:73-74 | the loop over a copy of the children empties the list |
| TestTree.TestTree.RemoveAllPass | mayatest/mayaunittestui.py:73-74 | one pass removes the first remaining child and pops it |
| TestTree.TestTree.SetStatus | mayatest/mayaunittestui.py:475-479 | the status is stored on the node and each ancestor below the root, and on nothing else; the walk reaches the root, or meets a node without a parent, where the source raises; a plain leaf then reports the new status |
| TestTree.TestTree.SetData | mayatest/mayaunittestui.py:468-482 | the decoration role writes the status upwards; the tool-tip role sets the node's tool tip; the edit role and other roles change nothing |
| TestTree.SampleSuite | mayatest/mayaunittestui.py:53-65 | a suite node with two tests, built as the node constructor does |
| TestTree.RemoveKeepsSecondChild | mayatest/mayaunittestui.py:73-74 | after `remove`, the second of two tests is still a child of the removed node |
| TestTree.RemoveAllDetachesBoth | mayatest/mayaunittestui.py:67-74 | after the corrected removal, neither test is attached |
| PathSelection.Split | mayatest/mayaunittestui.py:232 | `split(".")` yields at least one piece |
| PathSelection.Join | mayatest/mayaunittestui.py:234 | `".".join`; `JoinSplit` and `SplitJoin` make it the inverse of `Split` |
| PathSelection.SplitPiecesDotFree | mayatest/mayaunittestui.py:232 | no piece of a split holds a dot |
| PathSelection.JoinSplit | mayatest/mayaunittestui.py:232-234 | joining the pieces with dots gives the path back |
| PathSelection.SplitJoin | mayatest/mayaunittestui.py:232-234 | splitting a join of dot-free pieces gives the pieces back |
| PathSelection.JoinAppend | mayatest/mayaunittestui.py:234 | the join of two non-empty lists of pieces is their joins around one dot |
| PathSelection.SplitAround | mayatest/mayaunittestui.py:232 | splitting `p.q` splits `p` and `q` independently |
| PathSelection.SplitDotFree | mayatest/mayaunittestui.py:232 | a dot-free path is one piece |
| PathSelection.DotPrefixTransitive | mayatest/mayaunittestui.py:229-238 | an ancestor of an ancestor is an ancestor |
| PathSelection.AncestorIsDotPrefix | mayatest/mayaunittestui.py:233-234 | each path the inner loop tries is the path's prefix followed by a dot |
| PathSelection.DotPrefixIsAncestor | mayatest/mayaunittestui.py:233-234 | each such prefix is tried by the inner loop |
| PathSelection.HasSelectedAncestorIff | mayatest/mayaunittestui.py:233-236 | the inner loop breaks exactly when a selected path is a dotted prefix of the path |
| PathSelection.PrunePaths | mayatest/mayaunittestui.py:229-238 | `test_paths` is the selection, in order, without the paths whose inner loop breaks |
| PathSelection.Pruned | mayatest/mayaunittestui.py:229-238 | the selection without the paths that have a selected dotted ancestor, in order; `PrunedMembers` and the lemmas below state its properties |
| PathSelection.HasSelectedAncestor | mayatest/mayaunittestui.py:232-235 | one of the prefixes the inner loop tries is selected; `HasSelectedAncestorIff` ties it to dotted prefixes |
| PathSelection.PrunedMembers | mayatest/mayaunittestui.py:229-238 | a path is kept exactly when it is selected and none of its dotted ancestors is |
| PathSelection.PrunedAppend | mayatest/mayaunittestui.py:231-238 | pruning keeps selection order: it distributes over concatenation |
| PathSelection.NoNestedKept | mayatest/mayaunittestui.py:229-238 | no kept path lies inside another kept path (a path selected twice is still kept twice) |
| PathSelection.SelectedCovered | mayatest/mayaunittestui.py:229-238 | every selected path is kept or lies inside a kept path, so no selected test is lost |
| PathSelection.PruneIdempotent | mayatest/mayaunittestui.py:229-238 | pruning a pruned selection changes nothing |
| PathSelection.PrunedAll | mayatest/mayaunittestui.py:229-238 | a selection with no selected ancestors is kept whole |
| Runner.RunSelectedTests | mayatest/mayaunittestui.py:218-245 | the modules under the module path are reloaded first; the looked-up paths are the pruned selection, and none for an empty selection; the module table and `sys.path` end as the lookups of those paths, in order, leave them |
| Runner.SysPathAfterLookups | mayatest/mayaunittest.py:124-140 | after a run of lookups `sys.path` still ends with the original path, and gains the module path only if one looked-up path is empty (and is discovered instead) |
| Runner.NamedLookupsKeepSysPath | mayatest/mayaunittest.py:124-140 | looking up non-empty test paths leaves `sys.path` exactly as it was |
| Runner.ModulesAfterLookups | mayatest/mayaunittest.py:127 | after a run of lookups, every module already loaded keeps its entry, every module a lookup imports is loaded, and every new entry is one that some lookup imported |
| Runner.NoStaleModuleAfterRun | mayatest/mayaunittestui.py:220 | a module the reload dropped is back in the table after the run only as one of the lookups imported it again |
| CaptureStream.TextEdit.constructor | mayatest/mayaunittestui.py:316-317 | an empty text edit in a given colour |
| CaptureStream.TextEdit.SetTextColor | mayatest/mayaunittestui.py:322-332 | the colour changes and the text does not |
| CaptureStream.TextEdit.InsertPlainText | mayatest/mayaunittestui.py:330 | the text is appended unchanged in the current colour |
| CaptureStream.WriteColor | mayatest/mayaunittestui.py:321-328 | "ok" gives the success colour, "FAIL" the fail colour, "ERROR" the error colour, "skipped" the skip colour; any other text keeps the current colour |
| CaptureStream.PrefixesExclusive | mayatest/mayaunittestui.py:321-328 | at most one of the four prefixes matches, so their order does not matter |
| CaptureStream.StatusWordsKeepTheirColor | mayatest/mayaunittestui.py:310-328 | a write announcing a status is drawn in that status's colour, never the normal one, whatever the current colour |
| CaptureStream.TestCaptureStream.constructor | mayatest/mayaunittestui.py:316-317 | the stream writes into the given text edit |
| CaptureStream.TestCaptureStream.Write | mayatest/mayaunittestui.py:319-332 | the text is appended unchanged, in the colour its prefix selects, and the colour is then the normal colour |
| CaptureStream.ColorDoesNotLeak | mayatest/mayaunittestui.py:331-332 | plain text written after a "FAIL" line is drawn in the normal colour |
| Strings.NormalizePath | mayatest/mayaunittest.py:63 | each character is lower-cased, and each backslash becomes a slash |
| Strings.NormalizePathIdempotent | mayatest/mayaunittest.py:63-66 | normalising twice is normalising once |
| Strings.StartsWith | mayatest/mayaunittest.py:67 | `str.startswith`: the prefix is the first characters of the string |
| Strings.Decimal | mayatest/mayaunittest.py:278 | `str(count)` is a non-empty run of decimal digits |
| Strings.ParseDecimalRoundTrip | mayatest/mayaunittest.py:278 | reading the digits back gives the counter |
| Strings.DecimalInjective | mayatest/mayaunittest.py:278 | different counters print differently |
| Seqs.IndexOf | mayatest/mayaunittestui.py:99 | `index` raises exactly for a missing element, and otherwise gives its first position |
| Seqs.IndexOfNoDup | mayatest/mayaunittestui.py:99 | in a duplicate-free list, the index of an element is its position |
| Seqs.RemoveAt | mayatest/mayaunittestui.py:71 | `pop(i)` shortens the list by one |
| Seqs.RemoveAtNoDup | mayatest/mayaunittestui.py:71 | popping from a duplicate-free list drops exactly the popped element |
| Seqs.RemoveFirstAfter | mayatest/mayaunittest.py:139-140 | `remove(x)` drops the first occurrence of `x` |
| Seqs.RemoveFirst | mayatest/mayaunittest.py:139-140 | `list.remove` of a present element shortens the list by one |
| MayaUnitTest.PathJoin | mayatest/mayaunittest.py:151 | `os.path.join`: an absolute second part replaces the first; otherwise the parts are joined with at most one added slash |
| MayaUnitTest.TempDirsDistinct | mayatest/mayaunittest.py:148-151 | runs with different ids get different temporary directories |
| MayaUnitTest.TempDirFor | mayatest/mayaunittest.py:151 | the default temporary directory `<temp>/mayaunittest/<uuid>`; `TempDirsDistinct` states its property |
| MayaUnitTest.LastIndex | mayatest/mayaunittest.py:272 | `rfind`: the last position holding the character, or -1 |
| MayaUnitTest.SplitExt | mayatest/mayaunittest.py:272 | `splitext`: base and extension concatenate to the name; an extension starts with its only dot and holds no slash |
| MayaUnitTest.SplitExtCases | mayatest/mayaunittest.py:272 | a name with an extension, a name without one, a hidden file, and a dot in a directory name |
| MayaUnitTest.RemoveTree | mayatest/mayaunittest.py:257-258 | `rmtree` removes the directory and everything under it, and nothing else |
| MayaUnitTest.AfterCleanUp | mayatest/mayaunittest.py:252-258 | none of the recorded files, nor the temporary directory, is left; every other path is |
| MayaUnitTest.Settings.constructor | mayatest/mayaunittest.py:145-162 | the temporary directory is `<temp>/mayaunittest/<uuid>`; files are deleted, output is not buffered, and there is a file new between tests |
| MayaUnitTest.Settings.SetTempDir | mayatest/mayaunittest.py:165-173 | an existing directory is taken; otherwise it raises "`<dir>` does not exist." and the setting is unchanged |
| MayaUnitTest.Settings.SetDeleteFiles | mayatest/mayaunittest.py:176-181 | the setting takes the value |
| MayaUnitTest.Settings.SetBufferOutput | mayatest/mayaunittest.py:184-189 | the setting takes the value |
| MayaUnitTest.Settings.SetFileNew | mayatest/mayaunittest.py:192-197 | the setting takes the value |
| MayaUnitTest.AfterReload | mayatest/mayaunittest.py:55-71 | an empty user path keeps every module; otherwise exactly the modules whose normalised file starts with the normalised user path are dropped, and the rest keep their entries |
| MayaUnitTest.BuiltinsSurviveReload | mayatest/mayaunittest.py:65-71 | a module whose file lookup raises is never dropped |
| MayaUnitTest.ReloadIdempotent | mayatest/mayaunittest.py:55-71 | reloading twice drops nothing more than reloading once |
| MayaUnitTest.ReloadIgnoresCaseAndSlashes | mayatest/mayaunittest.py:63-67 | normalising the user path first changes nothing |
| MayaUnitTest.Host.AddToPath | mayatest/mayaunittest.py:200-209 | returns true exactly when the path exists and is not on `sys.path`; then it is put first, otherwise `sys.path` is unchanged |
| MayaUnitTest.Host.ReloadModules | mayatest/mayaunittest.py:55-71 | the module table becomes `AfterReload` of the old table |
| MayaUnitTest.Host.GetTests | mayatest/mayaunittest.py:108-142 | no directory list raises "directories must be specified." and changes nothing; otherwise the lookup's imports are added to the module table; with a named test `sys.path` ends as it started, and without one it ends as discovery leaves it |
| MayaUnitTest.AfterImport | mayatest/mayaunittest.py:127 | importing keeps every loaded module as it is and adds exactly the imported ones that were not loaded |
| MayaUnitTest.ReloadedModulesImportedAfresh | mayatest/mayaunittest.py:55-71 | a module the reload dropped is, after a later import, present exactly when imported again and then holds the new import |
| MayaUnitTest.Discovered | mayatest/mayaunittest.py:132-135 | discovery from each directory leaves every directory on `sys.path` and keeps the original path as its tail |
| MayaUnitTest.DiscoveredOne | mayatest/mayaunittest.py:134 | discovering from one directory puts it first unless it is already on `sys.path` |
| MayaUnitTest.Plugins.Members | mayatest/mayaunittest.py:223-245 | the plug-ins recorded, whether as a set or as a list |
| MayaUnitTest.CandidateInjective | mayatest/mayaunittest.py:273-278 | different counters give different candidate names |
| MayaUnitTest.Candidate | mayatest/mayaunittest.py:273-278 | the name tried at each count: no counter first, then the counter before the extension; `CandidateInjective` and `FirstCandidateIsFileName` state its properties |
| MayaUnitTest.NextUntried | mayatest/mayaunittest.py:275-278 | the next candidate has not been tried, so each pass meets a new existing path and the loop ends |
| MayaUnitTest.FreeCandidate | mayatest/mayaunittest.py:273-278 | the result does not exist, and every candidate before it does |
| MayaUnitTest.FirstCandidateIsFileName | mayatest/mayaunittest.py:272-273 | the first candidate is the file name under the temporary directory |
| MayaUnitTest.TestCaseClass.constructor | mayatest/mayaunittest.py:219-223 | no files recorded, and an empty set of plug-ins |
| MayaUnitTest.TestCaseClass.GetTempFilename | mayatest/mayaunittest.py:261-280 | the temporary directory exists afterwards; the result is the first candidate that does not exist, and it is appended to `files_created` |
| MayaUnitTest.TestCaseClass.DeleteTempFiles | mayatest/mayaunittest.py:248-258 | as written: with deletion on, the files and the directory are removed and `files_create` becomes empty, while `files_created` is untouched; with deletion off, nothing changes |
| MayaUnitTest.TestCaseClass.DeleteTempFilesFixed | mayatest/mayaunittest.py:248-258 | as intended: the same removals, and `files_created` becomes empty |
| MayaUnitTest.TestCaseClass.RemoveFiles | mayatest/mayaunittest.py:253-255 | every recorded file that exists is removed |
| MayaUnitTest.TestCaseClass.LoadPlugin | mayatest/mayaunittest.py:231-238 | the host loads the plug-in; the record gains it, or raises AttributeError once it is a list |
| MayaUnitTest.TestCaseClass.UnloadPlugins | mayatest/mayaunittest.py:240-245 | every recorded plug-in is unloaded, and the record becomes an empty list |
| MayaUnitTest.TestCaseClass.UnloadPluginsFixed | mayatest/mayaunittest.py:240-245 | the same unloading, and the record becomes an empty set |
| MayaUnitTest.TestCaseClass.UnloadAll | mayatest/mayaunittest.py:243-244 | the host unloads exactly the recorded plug-ins |
| MayaUnitTest.TestCaseClass.TearDownClass | mayatest/mayaunittest.py:225-229 | temporary files are deleted, then plug-ins are unloaded |
| MayaUnitTest.SecondRunCannotLoadPlugins | mayatest/mayaunittest.py:237-245 | after one tear-down, the next `load_plugin` raises AttributeError |
| MayaUnitTest.SecondRunLoadsPluginsWhenFixed | mayatest/mayaunittest.py:237-245 | with the fixed unload, the next `load_plugin` succeeds |
| MayaUnitTest.DeletedFilesStayRecorded | mayatest/mayaunittest.py:256 | after the clean-up, `files_created` still lists the deleted file |
| MayaUnitTest.DeletedFilesForgottenWhenFixed | mayatest/mayaunittest.py:256 | with the fixed clean-up, `files_created` is empty |

## Left out

- Qt plumbing is not modelled: the dialog, the view, the model's `index`/`parent`/`rowCount`/`data`/`flags`, `expand_tree`, the icons, QSettings persistence, and the `dataChanged` signals.
- Test discovery is not modelled beyond its effect on `sys.path` and `sys.modules`. This covers the suite walk of `TestNode.__init__`, `name()`, `path()`, the `node_lookup` keyed by `str(test)`, `run_tests`, `get_module_tests`, and which modules `loadTestsFromName` and `discover` import. It depends on `unittest` internals, reprs and the files on disk. The runner model takes the selected paths as input, and the modules each lookup imports as the parameter `importedBy`.
- `TestResult`, `ScriptEditorState`, `new_scene`, `tearDown` and the `CMT_UNITTEST` environment variable are not modelled. They are thin calls into `maya.cmds`, `logging` and `os.environ`.
- `assertListAlmostEqual` is left out: it compares floating-point numbers.
- mayatest/FileLine.py is not part of this model. It is a Qt widget.
- deploy.py is not part of this model. It copies a fixed directory.
- Host calls are assumed to succeed, because their failures come from Maya itself. This covers `cmds.loadPlugin`, `cmds.unloadPlugin`, `os.remove`, `shutil.rmtree` and `os.makedirs`.
- `os.makedirs` is modelled as creating only the temporary directory, not its missing parents.
- The file system is modelled without the file/directory distinction.
- `str.lower` is modelled for ASCII letters only. Paths follow POSIX rules (`/` separator) for `os.path.join` and `os.path.splitext`.
- TestCase's class attributes are modelled on one class object. Lookup through subclasses is not modelled. In the source, a subclass's `tearDownClass` rebinds `plugins_loaded` on that subclass, while appends to `files_created` go to the list on the base class.
- The tree's node ids replace object identity. Nodes live in one store, so a node moved between two trees is not modelled.
- TestTree.TestTree.Remove, TestTree.TestTree.SetStatus: require a consistent tree (parent links and child lists agree). The source's objects always keep these links consistent. `row()` raising ValueError for a node missing from its parent's list is modelled in `Row` but cannot occur under that requirement.
- TestTree.TestTree.SetStatus: the AttributeError the source raises at a node without a parent appears as the result `false`, after the writes the source has already done.
- TestTree.TestTree.Remove, TestTree.TestTree.RemoveAll: the frame of what stays unchanged is stated only for nodes older than the removed one (`KeptBelow`, `SameBelow`), and for nodes in the removed subtree only through `Valid`.
- MayaUnitTest.Host.GetTests: the test suite it fills is not modelled; only the directory check, `sys.path` and the imported modules are. Discovery puts the directory on `sys.path` as given, without `os.path.abspath`, and the ImportError `discover` raises for a start directory that is not importable is not modelled.
- MayaUnitTest.Host.GetTests, Runner.RunSelectedTests: a failed import, which Python removes from `sys.modules` again, is not modelled; every import in `imported` succeeds.
- The `flush` method of the capture stream does nothing and is not modelled.

## Findings

| source | as written | input that shows it | evidently intended | confidence | as-written member | corrected member |
|---|---|---|---|---|---|---|
| mayatest/mayaunittestui.py:73-74 | `remove` pops each child from `self.children` while iterating over that same list, so every second child is skipped | a node with two children `a`, `b`: after `remove`, `b` is still its child and still has it as parent | every child removed and detached, as the docstring says | not executed | TestTree.RemoveKeepsSecondChild | TestTree.TestTree.RemoveAll |
| mayatest/mayaunittest.py:245 | `unload_plugins` rebinds `plugins_loaded` to a list, and `load_plugin` then calls `add` on it | a test case class run twice in one session: the second run's `load_plugin` raises AttributeError | reset to an empty set | not executed | MayaUnitTest.SecondRunCannotLoadPlugins | MayaUnitTest.TestCaseClass.UnloadPluginsFixed |
| mayatest/mayaunittest.py:256 | `delete_temp_files` assigns `files_create`, so `files_created` is never cleared | one `get_temp_filename` followed by `delete_temp_files`: the deleted path is still in `files_created` | `files_created` emptied | not executed | MayaUnitTest.DeletedFilesStayRecorded | MayaUnitTest.TestCaseClass.DeleteTempFilesFixed |
