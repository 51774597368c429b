# dfim host core in Dafny

`dfim` is a dotfile and plugin manager. Its configuration language is Lua, run by an embedded
LuaJIT through `mlua`. This project models the host side of that embedding and proves
properties of the model:

- the interpreter state that `create_state` builds. The host module `dfim` is a
  `package.loaded` entry and also a global of the same name. It holds the build metadata,
  and the builtin modules are installed at dotted paths below it. Both the current version
  (`src/lua/mod.rs`) and the older, preload-based one (`src/lua.rs`) are modelled;
- plugin sources (`Source`): their name, the text they display as, and their conversions from
  and to guest values;
- the `dfim.sources` list, with its add, remove, contains and get operations;
- the plugin package searcher and its registration in `package.searchers`;
- the interactive prompt loop;
- `dfim.json.decode`'s conversion of JSON into guest tables;
- the logging functions;
- the flexible settings (`LuaFlexValue`);
- the string helpers `split`, `trim`, `startswith` and `endswith`;
- the `pathsep!` and `path!` macros;
- the build script, which turns Lua files into module names, compiles them and writes the
  generated `GEN_BUILTIN` table.

The guest runtime is modelled as a heap of tables addressed by identity (module `Guest`):
- a read of an absent key yields nil;
- storing nil removes the key;
- the class `Guest.Lua` holds the heap the host's methods update in place.

Oracles stand in for what the model cannot compute. Each is a function parameter:
- compiling a chunk;
- running a chunk;
- loading a module;
- calling a guest function;
- the file system the plugin searcher sees.

Imperative code is modelled by methods on that class, each tied to a specification function
of the old heap. The properties are proved as lemmas about those functions.

Files:
- `wrappers.dfy`, `text.dfy`, `paths.dfy` and `guest.dfy` are shared foundations;
- `shared.dfy` models `src/lua/api/shared.rs`, and the identical `src/lua/shared.rs`;
- `macros.dfy` models `src/macros.rs`;
- `source_value.dfy` models `src/source.rs`;
- `source_list.dfy` models `src/lua/source.rs`;
- `namespace.dfy` models `src/lua/mod.rs`;
- `legacy_lua.dfy` models `src/lua.rs`;
- `repl.dfy` models `src/repl.rs`;
- `plugin.dfy` models `src/lua/plugin.rs`;
- `json.dfy` models `src/lua/api/json.rs`;
- `logging.dfy` models `src/lua/logging.rs`;
- `flex.dfy` models `src/lua/traits.rs`;
- `build.dfy` models `build.rs`.

## Model

| member | source | states |
|---|---|---|
| Text.JoinSnoc | build.rs:153 | joining one more part appends the separator and that part |
| Text.JoinPrependFirst | src/repl.rs:137 | text glued to the first part comes out in front of the join |
| Text.DigitRoundTrip | build.rs:104 | each decimal digit's character reads back as that digit |
| Text.NatToDecimal | src/lua/plugin.rs:52 | `{}` rendering of a count is a non-empty string of digits with no leading zero |
| Text.DecimalRoundTrip | src/lua/plugin.rs:52 | the decimal text of any count parses back to that count |
| Text.IntToDecimal | src/source.rs:56 | the text of an integer starts with `-` exactly when it is negative |
| Shared.SplitOn | src/lua/api/shared.rs:34 | splitting on a non-empty pattern yields at least one piece |
| Shared.SplitEmptyPattern | src/lua/api/shared.rs:34 | an empty pattern splits a string into one-char pieces framed by two empty ones |
| Shared.Split | src/lua/api/shared.rs:28-43 | without `remove_empty`, the pieces joined with the pattern give back the input; with it, no piece is empty |
| Shared.JoinSplitOn | src/lua/api/shared.rs:34 | joining the pieces of a split on a non-empty pattern gives back the input |
| Shared.JoinPieces | src/lua/api/shared.rs:32-34 | the same round trip for any pattern, the empty one included, and for the default pattern |
| Shared.RemoveEmptyAt | src/lua/api/shared.rs:35-41 | the filtered list is the input's pieces at the kept positions, in order |
| Shared.KeptIndicesIncrease | src/lua/api/shared.rs:35-41 | the kept positions are strictly increasing, so the filter keeps the input order |
| Shared.KeptExactlyNonEmpty | src/lua/api/shared.rs:35-41 | a position is kept exactly when its piece is non-empty |
| Shared.RemoveEmpty | src/lua/api/shared.rs:35-41 | no kept piece is empty, and there are no more pieces than before |
| Shared.LeadingWhitespace | src/lua/api/shared.rs:46-48 | the count of leading whitespace covers only whitespace and stops at content |
| Shared.ContentEnd | src/lua/api/shared.rs:46-48 | the trailing part after the end of the content is all whitespace, and the last char kept is not whitespace |
| Shared.Trim | src/lua/api/shared.rs:46-48 | the trimmed text is no longer than the input and neither starts nor ends with whitespace |
| Shared.TrimSubstring | src/lua/api/shared.rs:46-48 | `trim` is a contiguous substring of the input with only whitespace around it |
| Shared.TrimIdempotent | src/lua/api/shared.rs:46-48 | trimming twice is trimming once |
| Shared.StartsWith | src/lua/api/shared.rs:51-53 | true exactly when the value is the pattern followed by something |
| Shared.EndsWith | src/lua/api/shared.rs:56-58 | true exactly when the value is something followed by the pattern |
| Macros.PathSep | src/macros.rs:3-13 | the separator is one character, and it is a backslash exactly on Windows |
| Macros.PathMacro | src/macros.rs:16-24 | a rooted path starts with the separator, and any other non-empty invocation with its first argument |
| Macros.PathMacroJoins | src/macros.rs:16-24 | `path!` is the arguments joined by the separator, with a leading separator when rooted |
| Paths.SegmentComponents | src/source.rs:17 | every component of a path is `..` or a non-empty normal name |
| Paths.SplitOnConcat | src/lua/plugin.rs:37 | splitting text that holds the separator splits each side apart |
| Paths.SplitOnWithout | src/lua/plugin.rs:37 | a segment free of the separator is one piece |
| Paths.SplitOnPiecesFree | src/lua/plugin.rs:37 | no piece of a split contains the separator |
| Paths.SplitJoinRoundTrip | build.rs:153 | separator-free parts, joined and split again, come back unchanged |
| Paths.SegmentComponentsSnoc | src/lua/plugin.rs:33 | one more segment adds its own components at the end |
| Paths.SegmentNamesNormal | src/source.rs:18 | every normal component of a split path is a proper file name |
| Paths.ComponentNamesNormal | src/source.rs:18 | every normal component of any path is a proper file name |
| Paths.JoinedComponents | src/lua/plugin.rs:33 | joining a segment onto a path ends its components with that segment's components |
| Paths.ComponentsOfSnoc | src/lua/plugin.rs:37 | the components of a path with one more segment are the old ones followed by the new segment's |
| Paths.JoinedNameIsLast | src/lua/plugin.rs:37 | the last component of `base.join(name)` is that name |
| Paths.JoinedParentIsLast | src/source.rs:17-19 | the last component of `base.join("..")` is the parent marker |
| Guest.CoerceString | src/source.rs:59 | a string reads as itself; exactly strings and numbers read as strings |
| Guest.Set | src/lua/mod.rs:95 | storing changes exactly one entry and allocates nothing |
| Guest.NewTable | src/lua/mod.rs:94 | a new table gets a fresh identity and starts empty |
| Guest.SetValid | src/lua/mod.rs:95 | storing a live value keeps the heap well formed |
| Guest.NewTableValid | src/lua/mod.rs:94 | allocating keeps the heap well formed and only extends it |
| Guest.GetTable | src/lua/mod.rs:48-49 | reading a field as a table succeeds exactly when the field holds a table, and yields that table |
| Guest.InitialHeap | src/lua/mod.rs:17 | the modelled fresh state: the globals hold `package`, whose `loaded` and `preload` are empty and whose `searchers` are the four standard ones |
| Guest.InitialWellFormed | src/lua/mod.rs:17 | the fresh state is well formed, with tables 0 to 4 |
| Guest.InitialPackage | src/lua/mod.rs:17 | the fresh state's `package.loaded`, `package.preload` and `package.searchers` are tables 2, 3 and 4 |
| Guest.Lua.constructor | src/lua/mod.rs:17 | a new interpreter holds the fresh state, with globals table 0 |
| SourceValue.RepoNameIsLastSegment | src/source.rs:16 | a repository's name is the text after its last `/`, and holds no `/` |
| SourceValue.RepoNameOfOwned | src/source.rs:16 | `owner/name` and a bare `name` are both named `name` |
| SourceValue.Name | src/source.rs:14-22 | a directory's name is empty or a proper file name |
| SourceValue.DirectoryNameOfJoined | src/source.rs:17-20 | `base/name` is named `name`, and `base/..` has the empty name |
| SourceValue.FromStr | src/source.rs:37-42 | accepted exactly when some character is not whitespace, as a repository of that text; otherwise the fixed message |
| SourceValue.FromLua | src/source.rs:46-74 | only strings and tables convert, and what converts is an acceptable source |
| SourceValue.FromLuaString | src/source.rs:48-54 | a string converts exactly when it is not blank; blank strings give the conversion error with the `from_str` message |
| SourceValue.FromLuaIndexFirst | src/source.rs:56-58 | a table whose `[1]` reads as a string converts as that string, whatever `dir` holds |
| SourceValue.FromLuaDir | src/source.rs:59-61 | without a usable `[1]`, a `dir` string gives a directory source |
| SourceValue.FromLuaTableRefused | src/source.rs:62-66 | a table with neither key is refused with its message |
| SourceValue.FromLuaOtherRefused | src/source.rs:68-72 | any other value is refused, naming its type |
| SourceValue.FromLuaFrame | src/source.rs:46-74 | conversion depends only on the converted table's own entries |
| SourceValue.IntoLua | src/source.rs:78-91 | a repository becomes its string; a directory becomes a fresh table holding only `dir`; the heap only grows |
| SourceValue.IntoFromRoundTrip | src/source.rs:46-91 | converting an acceptable source to a guest value and back gives the same source |
| SourceValue.Display | src/source.rs:25-32 | an acceptable repository's display text parses back to it; a directory displays as its path |
| SourceList.IndexOf | src/lua/source.rs:42 | `position` finds the first occurrence, and nothing exactly when the value is absent |
| SourceList.Added | src/lua/source.rs:28-35 | the value becomes a member and no other is added; the list grows by one exactly when the value was absent |
| SourceList.Removed | src/lua/source.rs:39-48 | the list shrinks by one exactly when the value was present, and gains no member |
| SourceList.AddedDistinct | src/lua/source.rs:28-35 | adding keeps the list free of duplicates, and appends the value when it is new |
| SourceList.AddedIdempotent | src/lua/source.rs:31 | adding a present value changes nothing, so adding twice is adding once |
| SourceList.RemovedShape | src/lua/source.rs:39-48 | removing drops the first occurrence only, as a multiset difference, and an absent value changes nothing |
| SourceList.DeleteAt | src/lua/source.rs:43 | deleting one position of a duplicate-free list removes exactly that value |
| SourceList.FirstIndex | src/lua/source.rs:42 | the first occurrence is the one `position` reports |
| SourceList.RemovedDistinct | src/lua/source.rs:39-48 | removal keeps the list duplicate-free and leaves every other value |
| SourceList.RemoveAfterAdd | src/lua/source.rs:28-48 | removing a value just added as new restores the list |
| SourceList.Sources.constructor | src/lua/source.rs:7-10 | a new list is empty |
| SourceList.Sources.Add | src/lua/source.rs:28-35 | the new list is the old one with the value appended unless already present |
| SourceList.Sources.Remove | src/lua/source.rs:39-48 | the first occurrence is removed, and the result says whether the value was there |
| SourceList.Sources.Contains | src/lua/source.rs:56-58 | true exactly when the value is in the list |
| SourceList.Sources.Get | src/lua/source.rs:51-53 | a fresh table with keys exactly 1 to n, whose entry i converts back to the i-th source |
| SourceList.StoreStep | src/lua/source.rs:52 | storing the next converted source extends a table that holds a prefix of the list |
| SourceList.EncodesDecodes | src/lua/source.rs:52 | an entry written for a source converts back to that source |
| SourceList.Register | src/lua/source.rs:21-25 | the root table's `sources` field becomes the handle of a new, empty list |
| Namespace.GrowsTransitive | src/lua/mod.rs:73-83 | "only fills nil entries" composes across steps |
| Namespace.ExtendsGrows | src/lua/mod.rs:115-116 | a heap that only grows only fills nil entries |
| Namespace.CreateTableInSpec | src/lua/mod.rs:90-104 | fails exactly when the name holds neither nil nor a table, and then leaves the heap as is; on success the name holds the returned table |
| Namespace.CreateTableInAbsent | src/lua/mod.rs:93-97 | a nil name gets a fresh empty table, and nothing else changes |
| Namespace.CreateTableInExisting | src/lua/mod.rs:98 | an existing table is returned and nothing changes |
| Namespace.CreateTableInRefused | src/lua/mod.rs:99-102 | any other value gives the error naming its type |
| Namespace.CreateTableInIdempotent | src/lua/mod.rs:90-104 | a second call returns the same table and changes nothing |
| Namespace.CreateModuleSpec | src/lua/mod.rs:47-51 | on success the module is the table at `package.loaded[name]` |
| Namespace.DescendSpec | src/lua/mod.rs:76-83 | on success every middle part is non-empty and the result is the table reached by walking them |
| Namespace.DescendStep | src/lua/mod.rs:81-82 | one step of the walk joins the walk through the rest |
| Namespace.DescendEmptyRefused | src/lua/mod.rs:77-79 | an empty part stops the walk with its error and no change |
| Namespace.StoreField | src/lua/mod.rs:84-86 | the final store sets the tail and returns the value stored |
| Namespace.DottedSpec | src/lua/mod.rs:73-86 | on success the stored value is returned and no middle part is empty |
| Namespace.SetNestedFieldSpec | src/lua/mod.rs:57-87 | on success the result is the value, and every middle segment of the name is non-empty |
| Namespace.SetNestedFieldGlobal | src/lua/mod.rs:67-71 | a name without a dot becomes a global holding the value |
| Namespace.DottedPath | src/lua/mod.rs:73-86 | on success the value sits at the tail of the table reached from `package.loaded` by the leading parts |
| Namespace.WalkCons | src/lua/mod.rs:73-83 | walking from `package.loaded` starts at the root module |
| Namespace.DottedFailureKeeps | src/lua/mod.rs:73-79 | a failure after the root module exists leaves that module in place |
| Namespace.NestedFieldHasRoot | src/lua/mod.rs:62-65 | a split always has a first part, so the "module must have a root" error never occurs |
| Namespace.CreateTableIn | src/lua/mod.rs:90-104 | the method's result and new heap are those of `CreateTableInSpec` |
| Namespace.CreateModule | src/lua/mod.rs:47-51 | the method's result and new heap are those of `CreateModuleSpec` |
| Namespace.Descend | src/lua/mod.rs:74-83 | the loop's result and new heap are those of `DescendSpec` |
| Namespace.SetNestedField | src/lua/mod.rs:57-87 | the method's result and new heap are those of `SetNestedFieldSpec` |
| Namespace.WithMetadata | src/lua/mod.rs:22-26 | the five metadata fields hold their values, and only the module table changes |
| Namespace.InstallSpec | src/lua/mod.rs:32-36 | installing the builtins keeps the heap well formed |
| Namespace.BuiltinName | src/lua/mod.rs:33 | the load name is the host module, a dot, then the builtin's name, which can be read back from it |
| Namespace.RunPasses | src/lua/mod.rs:32-36 | a loop of passes that keep the state well formed keeps it well formed |
| Namespace.RunSucceeds | src/lua/mod.rs:32-36 | the loop succeeds exactly when every pass does, and then ends in the state after the last pass |
| Namespace.RunFails | src/lua/mod.rs:32-36 | a failed loop fails with the error and the state of the first failing pass, every earlier pass having succeeded |
| Namespace.RunEach | src/lua/mod.rs:32-36 | in a successful loop every pass succeeds on the state the earlier passes left |
| Namespace.InstallStepLoads | src/lua/mod.rs:33-35 | a pass yields the value loaded for `dfim.<name>`; a loader error stops it with that error and the state unchanged |
| Namespace.BuiltinStore | src/lua/mod.rs:35 | storing a module value that is none of the core tables at `dfim.<name>` keeps the aliasing, changes the host module only at the name's first segment, and stores a dot-free name's value right there |
| Namespace.InstallPlaces | src/lua/mod.rs:32-36 | after a successful loop the host module holds, under builtin i's dot-free name, the value the loader returned for `dfim.<name>` on pass i, unless a later builtin's first segment reuses that name |
| Namespace.PreludeSpec | src/lua/mod.rs:20-29 | the prelude keeps the heap well formed |
| Namespace.CreateStateSpec | src/lua/mod.rs:16-40 | the built state is well formed |
| Namespace.PreludeModule | src/lua/mod.rs:21 | on a fresh `package.loaded`, `dfim` becomes a new table there and `package` stays in place |
| Namespace.PreludeAliased | src/lua/mod.rs:21-29 | after the prelude, the global `dfim` and `package.loaded.dfim` are the same new table |
| Namespace.PreludeMetadata | src/lua/mod.rs:22-26 | after the prelude the module holds the five metadata fields |
| Namespace.BuiltinSegments | src/lua/mod.rs:33 | `dfim.<name>` splits into the host module and the name |
| Namespace.InstallKeepsAlias | src/lua/mod.rs:32-36 | for loaders whose modules reference none of the core tables, installing builtins of any names keeps the global `dfim` and `package.loaded.dfim` the same table |
| Namespace.CreateStateAliases | src/lua/mod.rs:16-40 | under the same condition on loaders, in the built state the global `dfim` is `package.loaded.dfim` |
| Namespace.CreateStatePlaces | src/lua/mod.rs:16-40 | after a successful `create_state`, `dfim.<name>` holds the value loaded for that builtin on its pass, for a dot-free name no later builtin's first segment reuses |
| Namespace.Prelude | src/lua/mod.rs:20-29 | the method's result and new heap are those of `PreludeSpec` |
| Namespace.InstallBuiltins | src/lua/mod.rs:32-36 | the loop's result and new heap are those of `InstallSpec` |
| Namespace.CreateState | src/lua/mod.rs:16-40 | a fresh interpreter whose state and result are those of `CreateStateSpec` |
| LegacyLua.CreateModuleSpec | src/lua.rs:39-56 | on success the module is at `package.loaded[name]`; on failure nothing changes |
| LegacyLua.CreateModuleAbsent | src/lua.rs:45-49 | a nil entry gets a fresh empty table and nothing else changes |
| LegacyLua.CreateModuleExisting | src/lua.rs:50 | an existing table is returned unchanged |
| LegacyLua.CreateModuleRefused | src/lua.rs:51-54 | any other value gives the "cannot create module" error naming its type |
| LegacyLua.CreateModuleIdempotent | src/lua.rs:39-56 | a second call returns the same module and changes nothing |
| LegacyLua.CreateModuleAgrees | src/lua.rs:39-56 | same heap effect and same successes as the current `create_module` |
| LegacyLua.PreloadSpec | src/lua.rs:62-72 | preloading allocates nothing, and a failure changes nothing |
| LegacyLua.PreloadStores | src/lua.rs:67-71 | succeeds exactly when `package.preload` exists and the chunk compiles; then only `preload[name]` changes, to the compiled function |
| LegacyLua.PreloadReplaces | src/lua.rs:62-72 | a second preload under the same name overrides the first |
| LegacyLua.InstallSpec | src/lua.rs:24-28 | preloading and binding the builtins keeps the heap well formed |
| LegacyLua.BindStatement | src/lua.rs:26 | the statement assigns to `dfim.<name>` the module required by the builtin's own name, and holds nothing else |
| LegacyLua.BindStepOrder | src/lua.rs:25-27 | a pass succeeds exactly when the preload and then the binding succeed; the binding runs with the compiled chunk in `package.preload`; a compile failure stops the pass before the binding with the state unchanged |
| LegacyLua.InstallRanEach | src/lua.rs:24-28 | in a successful loop, each builtin's binding statement ran with its compiled chunk preloaded, and succeeded |
| LegacyLua.PreludeSpec | src/lua.rs:15-21 | the prelude keeps the heap well formed |
| LegacyLua.PreludeAgrees | src/lua.rs:15-21 | the older prelude builds the same state as the current one |
| LegacyLua.CreateStateSpec | src/lua.rs:10-32 | the built state is well formed |
| LegacyLua.PreloadKeepsAlias | src/lua.rs:25 | preloading keeps `dfim` aliased and `package.preload` apart from it |
| LegacyLua.BindKeepsAlias | src/lua.rs:26-27 | running `dfim.<name>=require('<name>')` keeps the aliasing |
| LegacyLua.InstallKeepsAlias | src/lua.rs:24-28 | for dot-free builtin names, the builtin loop keeps the global `dfim` and `package.loaded.dfim` the same table |
| LegacyLua.CreateStateAliases | src/lua.rs:10-32 | for dot-free builtin names, in the built state the global `dfim` is `package.loaded.dfim` |
| LegacyLua.CreateModule | src/lua.rs:39-56 | the method's result and new heap are those of `CreateModuleSpec` |
| LegacyLua.PreloadModule | src/lua.rs:62-72 | the method's result and new heap are those of `PreloadSpec` |
| LegacyLua.Prelude | src/lua.rs:15-21 | the method's result and new heap are those of `PreludeSpec` |
| LegacyLua.InstallBuiltins | src/lua.rs:24-28 | the loop's result and new heap are those of `InstallSpec` |
| LegacyLua.CreateState | src/lua.rs:10-32 | a fresh interpreter whose state and result are those of `CreateStateSpec` |
| Repl.Inspect | src/repl.rs:132-134 | the chunk is `print(dfim.inspect(`, the expression unchanged, then `))`, so the expression can be read back |
| Repl.LoadLines | src/repl.rs:101-103 | no lines give the empty chunk, and a single line is the chunk itself |
| Repl.InspectLines | src/repl.rs:136-138 | the lines joined by spaces can be read back from the chunk, and a single line is inspected as it is |
| Repl.LoadLinesSnoc | src/repl.rs:101-103 | one more buffered line is appended after a space |
| Repl.Classify | src/repl.rs:106-130 | read errors fail; interrupt, end of input and the exit words exit; an empty line resets; any other line runs, wrapped in `inspect` when it starts with `=` on a first line |
| Repl.Settle | src/repl.rs:57-87 | handling the outcome leaves the buffer, the history and the prompts alone |
| Repl.AfterExecute | src/repl.rs:55-91 | the buffer is cleared or keeps the new line; the first chunk run is the joined buffer |
| Repl.StepSpec | src/repl.rs:45-92 | every step shows exactly one prompt, `>> ` when incomplete |
| Repl.PromptShowsIncomplete | src/repl.rs:111 | the prompt is `>> ` exactly when lines are waiting in the buffer |
| Repl.ExitAnywhere | src/repl.rs:53 | an exit input stops the loop successfully with only the prompt shown |
| Repl.ReadFailureStops | src/repl.rs:126 | a read error stops the loop with that error |
| Repl.EmptyLineResets | src/repl.rs:48-52 | an empty line clears the buffer and the incomplete flag |
| Repl.LineRuns | src/repl.rs:55-57 | any other line is recorded in the history and run joined to the buffer |
| Repl.RetryOnce | src/repl.rs:64-74 | a chunk that fails as a bare expression is retried once inside `inspect`, and any retry error is printed |
| Repl.IncompleteKeeps | src/repl.rs:76-79 | incomplete input keeps the buffer and prints nothing |
| Repl.OtherErrorPrinted | src/repl.rs:81-84 | any other error is printed and the buffer cleared |
| Repl.SuccessClears | src/repl.rs:58 | a successful run clears the buffer and prints nothing |
| Repl.RunCoherent | src/repl.rs:45-92 | the loop keeps "the buffer is non-empty only when incomplete" |
| Repl.RunFrom | src/repl.rs:45-92 | the loop fails only with the error of a failed read among its inputs, and shows at least one prompt |
| Repl.RunExtendsLog | src/repl.rs:45-92 | the loop only appends to the prompts, the history, the chunks run and the errors printed |
| Repl.RunStopsAtExit | src/repl.rs:53 | nothing after an exit word is read |
| Repl.RunImpl | src/repl.rs:40-95 | the loop returns what the session function gives on the same inputs |
| Repl.RunBuffer | src/repl.rs:55-91 | running the buffer gives the session that `AfterExecute` specifies |
| Plugin.Replace | src/lua/plugin.rs:34 | no dot survives replacement by a dot-free separator; dot-free names are unchanged |
| Plugin.ProbeSpec | src/lua/plugin.rs:36-48 | nothing is found exactly when no candidate file exists; otherwise the first existing candidate, in suffix order, is loaded |
| Plugin.SearchFrom | src/lua/plugin.rs:26-49 | a loader found is the compiled form of a candidate file that exists |
| Plugin.SearchSpec | src/lua/plugin.rs:16-55 | without the plugin directory the reason is the fixed "no dfim plugin directory"; a failed listing is an error; a loader found is the compiled form of an existing file; with SearchReturnsFirstHit (a present candidate is found), SearchReportsEntryError (an entry failing to read is an error), FoundIsFirst (a found one is the first) and NotFoundCounts (none present gives the count) as partners |
| Plugin.NoRootReported | src/lua/plugin.rs:20-23 | without a plugin directory the searcher returns the "no dfim plugin directory" reason |
| Plugin.NonDirectorySkipped | src/lua/plugin.rs:28-30 | an entry that is not a directory is skipped without being counted |
| Plugin.NotFoundCounts | src/lua/plugin.rs:25-54 | when no directory has the module, the reason names it and counts exactly the directories searched |
| Plugin.PassStep | src/lua/plugin.rs:26-31 | passing over an entry counts it when it is a directory |
| Plugin.FoundIsFirst | src/lua/plugin.rs:26-49 | a found module comes from the first directory holding a candidate, at its first existing suffix |
| Plugin.FirstHitReturned | src/lua/plugin.rs:26-49 | the converse of FoundIsFirst: a directory entry holding a candidate, after entries that all read and were passed over, is where the search stops, with that directory's probe result |
| Plugin.SearchReturnsFirstHit | src/lua/plugin.rs:16-55 | on a listing whose first directory holding a candidate is entry `i`, earlier entries read and passed over, `search_plugins` returns the loader (or loading error) for that directory's first existing candidate |
| Plugin.EntryErrorReported | src/lua/plugin.rs:26-27 | an entry that fails to read, after entries that all read and were passed over, ends the search with that entry's error (`entry?`) |
| Plugin.SearchReportsEntryError | src/lua/plugin.rs:16-55 | on a listing whose entry `i` fails to read, earlier entries read and passed over, `search_plugins` fails with that entry's error |
| Plugin.FoundAtCons | src/lua/plugin.rs:26-31 | entries passed over before a hit keep it the first hit |
| Plugin.ProbeOrder | src/lua/plugin.rs:36 | `<name>.lua` wins over `<name>/init.lua` |
| Plugin.ProbePaths | src/lua/plugin.rs:33-37 | module `a.b` is looked for at `<entry>/lua/a/b<suffix>` |
| Plugin.ProbeJoin | src/lua/plugin.rs:33-37 | joining `lua` and then a relative path onto an entry gives `<entry>/lua/<path>` |
| Plugin.ModulePathOfTwo | src/lua/plugin.rs:34 | `a.b` maps to `a/b` |
| Plugin.ReplaceConcat | src/lua/plugin.rs:34 | replacing in concatenated text replaces in each part |
| Plugin.LeadingDotEscapes | src/lua/plugin.rs:34-37 | a module name with a leading dot probes an absolute path outside the plugin directory |
| Plugin.SearchPlugins | src/lua/plugin.rs:16-55 | the searcher's loops return what the search function gives |
| Plugin.ProbeEntry | src/lua/plugin.rs:36-48 | the suffix loop returns what `ProbeSpec` gives |
| Plugin.BorderFrom | src/lua/plugin.rs:11 | the border found is a run of non-nil entries from 1, followed by nil |
| Plugin.IndexKeysBound | src/lua/plugin.rs:11 | a table with keys 1 to n has at least n keys, so the border search ends |
| Plugin.IndexKeys | src/lua/plugin.rs:11 | the keys 1 to n are exactly n keys |
| Plugin.Len | src/lua/plugin.rs:11 | `len()` is a border: entries 1 to n are non-nil and entry n+1 is nil |
| Plugin.RegisterSpec | src/lua/plugin.rs:7-14 | registering allocates nothing, and a failure changes nothing |
| Plugin.RegisterAppends | src/lua/plugin.rs:9-11 | the searcher is stored just after the border, and nothing else changes |
| Plugin.RegisterFresh | src/lua/plugin.rs:11 | on a fresh interpreter the searcher becomes the fifth, after the four standard ones |
| Plugin.InitialSearchers | src/lua/plugin.rs:10 | a fresh interpreter has four standard searchers at 1 to 4 |
| Plugin.SequenceLen | src/lua/plugin.rs:11 | on a proper sequence the border is its length |
| Plugin.Register | src/lua/plugin.rs:7-14 | the method's result and new heap are those of `RegisterSpec` |
| Build.Message | build.rs:139-148 | each rejection carries its own message |
| Build.StripLua | build.rs:138 | `.lua` is removed when it ends the name; otherwise the name is unchanged |
| Build.CheckPart | build.rs:137-149 | a part is accepted exactly when its stripped name is valid, which gives it; empty and non-letter starts are their own errors |
| Build.SourceRelative | build.rs:133 | accepted exactly when the path starts at the runtime directory, which yields the rest |
| Build.ModuleNameSpec | build.rs:132-154 | a module name is valid parts joined with `.` |
| Build.CheckParts | build.rs:135-151 | the loop returns the parts or the first error, as the part checker specifies |
| Build.GetModuleName | build.rs:132-154 | the module name or error that the spec function gives |
| Build.NormalNames | build.rs:136 | the names of the normal components: a name is listed exactly when it is a normal component, and a path of normal components gives its names in order |
| Build.PartsChecksNames | build.rs:135-151 | checking components is checking their normal names |
| Build.CheckNamesOk | build.rs:139-148 | the check succeeds exactly when every name is accepted |
| Build.CheckNamesValue | build.rs:138-149 | on success the parts are the stripped names, in order |
| Build.CheckNamesFirstError | build.rs:139-148 | a failure reports the first rejected name, all earlier names being accepted |
| Build.PartsAreStrippedNames | build.rs:135-151 | success exactly when every normal name is accepted, yielding the stripped names |
| Build.FirstInvalidReported | build.rs:135-151 | a failure reports the first invalid component |
| Build.PartsValid | build.rs:139-149 | every accepted part is valid |
| Build.ModuleNameSplits | build.rs:153 | splitting the module name on `.` gives back its parts |
| Build.JoinedNameChars | build.rs:153 | joining valid parts gives letters, digits, `-`, `_` and `.` only |
| Build.PartsJoinPlain | build.rs:153 | every module name uses only those characters |
| Build.ModuleNameNeedsNoEscape | build.rs:116 | a module name needs no escaping inside the generated string literal |
| Build.ValidPartNoSuffix | build.rs:138 | a valid part neither ends in `.lua` nor holds `/` |
| Build.NestedSegments | build.rs:135-136 | `runtime/a/f` splits into its three segments |
| Build.TwoSegments | build.rs:135-136 | `a/f` splits into two segments |
| Build.NestedComponents | build.rs:135-136 | `runtime/a/f` has three normal components |
| Build.NestedFileName | build.rs:132-154 | `runtime/a/b.lua` is module `a.b` |
| Build.BareSuffixIsEmpty | build.rs:138-139 | a file named `.lua` is an empty part |
| Build.HexDigitRoundTrip | build.rs:113 | each hex digit reads back |
| Build.HexText | build.rs:113 | each byte is written as `0x` and two digits |
| Build.HexByte | build.rs:113 | each `u8` is written as `0x` and two more characters |
| Build.ParseHexText | build.rs:113 | a parsed byte literal is below 256 |
| Build.HexTextRoundTrip | build.rs:113 | every byte's literal parses back and holds no comma |
| Build.HexByteRoundTrip | build.rs:113 | the same for `u8` bytes |
| Build.ParseRendered | build.rs:109-115 | the comma-separated literals parse back to the bytes |
| Build.RenderBytes | build.rs:109-115 | the generated array text decodes to the compiled bytecode |
| Build.CountAfter | build.rs:98-105 | the decimal count in the header reads back |
| Build.HeaderDeclaresCount | build.rs:98-105 | the header declares exactly as many pairs as were compiled |
| Build.GeneratedSource | build.rs:97-122 | the generated file starts with the fixed header text and ends with `];` |
| Build.EntriesSnoc | build.rs:109-120 | one more pair appends its entry to the generated text |
| Build.CompileOne | build.rs:80-90 | a file gives its module name and bytecode exactly when both succeed; a name error comes first |
| Build.CompileModule | build.rs:80-90 | the method gives what `CompileOne` specifies |
| Build.CollectModules | build.rs:78-91 | the loop gives the pairs, or the first failure, as the collect function specifies |
| Build.PrependNothing | build.rs:90 | prepending no pairs changes nothing |
| Build.PrependTwice | build.rs:90 | prepending in two steps is prepending the concatenation |
| Build.CollectCons | build.rs:78-91 | the first file's failure stops the loop; its success puts its pair first |
| Build.CompileLua | build.rs:71-125 | the generated source for the collected pairs, or the first failure |
| Build.CollectedPairs | build.rs:78-91 | on success there is one pair per file, in glob order, each that file's name and bytecode |
| Build.CollectSucceeds | build.rs:78-91 | collection succeeds exactly when every file builds |
| Json.NumberValue | src/lua/api/json.rs:48-58 | an `i64` becomes an integer, else an `f64` a number, and only a number that is neither fails |
| Json.Convert | src/lua/api/json.rs:44-75 | conversion only extends the heap and yields a live value, and its only error is the unrepresentable number |
| Json.FillArray | src/lua/api/json.rs:60-66 | filling an array leaves every other table alone |
| Json.FillObject | src/lua/api/json.rs:67-73 | filling an object leaves every other table alone |
| Json.FromJson | src/lua/api/json.rs:44-75 | the method's result and new heap are those of `Convert` |
| Json.FillArrayLoop | src/lua/api/json.rs:62-64 | the loop's result and new heap are those of `FillArray` |
| Json.FillObjectLoop | src/lua/api/json.rs:69-71 | the loop's result and new heap are those of `FillObject` |
| Json.RepresentsFrame | src/lua/api/json.rs:44-75 | a converted value stays correct while its tables are unchanged |
| Json.RepresentsWeaken | src/lua/api/json.rs:44-75 | correctness with new tables from a later point holds from an earlier one |
| Json.FillArrayKeys | src/lua/api/json.rs:62-64 | filling touches only the keys 1 to n |
| Json.FillObjectKeeps | src/lua/api/json.rs:69-71 | keys not in the object are unchanged |
| Json.FillObjectKeys | src/lua/api/json.rs:69-71 | the table gains only the object's keys |
| Json.ConvertRepresents | src/lua/api/json.rs:44-75 | a successful conversion gives a value that represents the document, built from new tables |
| Json.FillArrayHead | src/lua/api/json.rs:63 | the first item is stored at its index, correctly converted |
| Json.HoldsFromCons | src/lua/api/json.rs:62-64 | a correct first item and a correct rest make a correct array |
| Json.FillArrayRepresents | src/lua/api/json.rs:60-66 | after filling, entry i+1 represents the i-th item |
| Json.FillObjectRepresents | src/lua/api/json.rs:67-73 | after filling, each key holds its last value in the object, converted |
| Json.LastOfFirst | src/lua/api/json.rs:69-71 | a first member that is the last of its key is not repeated |
| Json.LastOfTail | src/lua/api/json.rs:69-71 | the last member of a key is still the last after the first member is dropped |
| Json.ConvertSucceeds | src/lua/api/json.rs:44-75 | conversion succeeds exactly when every number in the document is representable |
| Json.FillArraySucceeds | src/lua/api/json.rs:60-66 | filling succeeds exactly when every item is representable |
| Json.ItemsCons | src/lua/api/json.rs:62 | all items are representable exactly when the first and the rest are |
| Json.MembersCons | src/lua/api/json.rs:69 | all members are representable exactly when the first and the rest are |
| Json.FillObjectSucceeds | src/lua/api/json.rs:67-73 | filling succeeds exactly when every value is representable |
| Logging.LevelValue | src/lua/logging.rs:14-18 | levels are numbered 1 to 5 |
| Logging.LevelOf | src/lua/logging.rs:51-58 | a missing level is `Info`, a level's number selects it, and any other number is `Info` |
| Logging.LevelRoundTrip | src/lua/logging.rs:13-18 | the `levels` table maps each name to a number that selects that level again |
| Logging.LevelsExact | src/lua/logging.rs:13-18 | the `levels` table has exactly the five names, each selecting its level |
| Logging.LevelDefault | src/lua/logging.rs:51-58 | a level other than `Info` comes only from that level's own number |
| Logging.Target | src/lua/logging.rs:39-41 | a string target is used as it is and a number target as its text; no options, a missing target or one of another type gives the empty target |
| Logging.FmtTarget | src/lua/logging.rs:38-45 | the target always starts with `LUA` |
| Logging.FmtTargetParts | src/lua/logging.rs:42-44 | it is `LUA` exactly when there is no target, and otherwise `LUA::` then the target |
| Logging.Log | src/lua/logging.rs:47-63 | the record has the chosen level, the message and the formatted target |
| Logging.LogAt | src/lua/logging.rs:65-80 | each per-level function emits at its level, with the formatted target |
| Logging.LogMatchesLevelFunction | src/lua/logging.rs:13-80 | `log` with `levels.X` emits what the per-level function X emits |
| Flex.ExpectAsWritten | src/lua/traits.rs:52-56 | as written, no instance names numbers as its expected type |
| Flex.FloatExpectationAsWritten | src/lua/traits.rs:54-55 | as written, the `f64` and `i64` instances describe the same expected type |
| Flex.Expect | src/lua/traits.rs:55 | corrected, only the `f64` instance changes its word |
| Flex.Message | src/lua/traits.rs:41 | the expected-type word can be read back from its place in the message |
| Flex.MessageInjective | src/lua/traits.rs:41 | two messages agree only when their words do |
| Flex.Expectation | src/lua/traits.rs:41 | the corrected message differs from the message as written for the `f64` instance only |
| Flex.ExpectDistinct | src/lua/traits.rs:52-56 | with `number` for `f64`, every instance names a different expected type |
| Flex.FlexValue | src/lua/traits.rs:35-43 | the accepted variant is returned as it is; a function is called; anything else gives the conversion error with the source's message, `integer` for `f64` included |
| Flex.FloatRefusalAsWritten | src/lua/traits.rs:55 | as written, a boolean given for an `f64` setting is refused with "expected integer or function returning a integer", the message of an `i64` setting |
| Flex.FlexValueIntended | src/lua/traits.rs:35-43 | the same conversion with `number` in the `f64` message |
| Flex.IntendedAgrees | src/lua/traits.rs:35-56 | the corrected conversion equals the source's except on a refused `f64` value, where the two differ |
| Flex.IntendedRefusalsDistinct | src/lua/traits.rs:52-56 | corrected refusals for different instances never carry the same message |
| Flex.MaybeFlexValue | src/lua/traits.rs:18-24 | the optional form has a value exactly when the conversion succeeds, and it is that value |
| Flex.NonFunctionIgnoresCall | src/lua/traits.rs:35-43 | a value that is not a function makes no call |
| Flex.NumbersNotInterchanged | src/lua/traits.rs:54-55 | an integer is no `f64` setting and a number is no `i64` setting |
| Flex.StringUnchanged | src/lua/traits.rs:53 | a plain string setting is returned as it is |
| Flex.ResultAccepted | src/lua/traits.rs:35-43 | a success is of the instance's variant when the called function's results are |

## Left out

- Input and output are left out: terminal reading and editing, standard error, files and the environment. The model takes the prompt's inputs as a sequence. It records what is printed. The file system seen by the plugin searcher and by the build script is a parameter.
- Compiling, running and calling guest code are left out. So are `load_from_function` and its caching. Each is an oracle parameter: `Compiler`, `Exec`, `Loader` and `Call`. What each oracle may do is stated as an assumption; the lines below name the strong ones.
- `Namespace.LoaderSound`: a loader keeps every table and every entry except those at the module's own name, where `load_from_function` stores `package.loaded[name]`. Writes a module's chunk makes to other existing tables are not modelled.
- `Namespace.LoaderShields`: the alias and placement lemmas take loaders whose module values are none of the globals, `package`, `package.loaded` and `dfim`, and that store no reference to those four tables outside the first three. A module returning `_G` and later stored under a dotted name could otherwise rebind `dfim`.
- `Namespace.InstallPlaces` and `Namespace.CreateStatePlaces` state the placement only for a dot-free builtin name that no later builtin's first segment reuses. A dotted name such as `a.b` lands in a nested table, and a later `x.y` overwrites an earlier `x`.
- `LegacyLua.InstallKeepsAlias` and `LegacyLua.CreateStateAliases` are proved only for dot-free builtin names, because `LegacyLua.ExecSound` states the effect of a binding statement only for such names. The older setup's only builtin is `inspect`.
- `create_native_api` and the modules it registers are left out, except for the source list, the searcher, logging, JSON and the string helpers. `hostname` and the system module are left out too, because they only read the host environment.
- `Guest.InitialHeap`: the standard libraries' entries in the globals and `package.loaded` are left out. `Lua::new()` also puts `_G`, `string`, `table`, `math` and the other safe libraries there. The proved properties do not depend on them: `dfim` is absent either way, and `Shielded` allows the entries that name the globals and `package`.
- Metatables are left out. So `dfim.log`'s `__call` is modelled through the `log` function it calls, and the table it lives in is not modelled.
- `Logging.LevelOf`: the conversion of the level argument to `usize` is left out. The model takes an optional natural number. A negative or non-integer argument, which `mlua` refuses before `log` runs, is not modelled.
- `Guest.CoerceString`, `Json.NumberValue`, `Json.ConvertRepresents`, `SourceValue.FromLua`, `Logging.Target`, `Plugin.BorderFrom`, `Plugin.Len` and `Plugin.RegisterAppends`: LuaJIT's number representation is left out. LuaJIT stores every number as a double, so the model's `Integer` is exact only within plus or minus 2^53; a JSON `i64` beyond that is rounded by the runtime and not by the model. LuaJIT turns numbers into strings with `%.14g`, so an integer renders as plain decimal only below 10^14 in magnitude; the model always gives its decimal digits. `Integer` is unbounded rather than `i64`. `len()` on a table with holes may return any border; the model fixes the first one, and `RegisterAppends` is proved for that choice.
- Floating point is opaque: `f64` values are carried as a `Float` without arithmetic. Whether a JSON number fits `i64` or `f64` is the parsed number's own pair of flags. JSON parsing itself is left out.
- Paths use Unix rules only. Windows prefixes, drive letters and `\` separators are left out. `Macros.PathSep` still models both platforms.
- The character classes are modelled from their definitions in the code. `char::is_whitespace` is the Unicode `White_Space` list. `is_alphabetic` and `is_alphanumeric` are limited to ASCII letters and digits.
- Invalid UTF-8 is treated as its own case and left out: `to_str` failures and `to_string_lossy` replacements.
- Failures to create strings or tables, including memory errors, are left out. The model has no allocation limit.
- The generated `GEN_BUILTIN` is taken to be given: the state builder takes the builtin `(name, bytecode)` pairs as a parameter. The glob order of the build script is the order of the given paths.
- Writing the bytecode to a file and reading it back is left out. It is modelled as the bytes kept unchanged. The chunk name `stdin` and `print_header` are left out too.
- `Sources.Add` requires an acceptable source. In the source the value always comes from the guest conversion, and `SourceValue.FromLua` proves that every value it yields is acceptable.
- `SourceList.Sources.Get` and `SourceList.Register`: userdata handles are plain numbers. The source list is a class of its own, not stored in the heap.
- The REPL's history errors from `add_history_entry` are left out. Once the given inputs run out, the loop treats that as end of input.
- `Flex.FlexValue`: `stringify!` of `Table<'lua>` is kept as the text `Table<'lua>`. The compiler's exact spacing of that text is not modelled.
- The JSON error message is kept as the literal text `{n:?}`, because the source passes a plain string rather than a format.
- Concurrency and `Send` bounds are left out, as are the command-line interface and configuration loading.

## Findings

| source | as written | input that shows it | evidently intended | confidence | as-written member | corrected member |
|---|---|---|---|---|---|---|
| src/lua/traits.rs:55 | the `f64` instance of `impl_flex!` gives "integer" as its expected type, so a refused number setting says "expected integer or function returning a integer" | a boolean given where an `f64` setting is read | "expected number or function returning a number", distinct from the `i64` instance | not executed | Flex.FloatRefusalAsWritten | Flex.FlexValueIntended |
