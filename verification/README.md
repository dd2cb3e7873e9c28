# NinjaTurtles type resolution and MSTest runner, in Dafny

This project models two small parts of NinjaTurtles, the .NET mutation-testing tool.

**`TypeResolver`** finds types by walking an assembly's reference graph.
- `ResolveTypeFromReferences` does a depth-first search for the first type with a given full name.
- `ResolveNamespaceTypesFromReferences` collects every top-level class under a namespace from every assembly the walk reaches.
- `LoadReferencedAssembly`, `TryLoad` and `TryLoadFrom` load one referenced assembly through a layered fallback:
  1. `Assembly.Load` by full name;
  2. `Assembly.Load` by `AssemblyName`;
  3. `Assembly.LoadFrom` of `<folder>\<name>.dll`, then `.exe`.
- `FileNotFoundException` and `FileLoadException` are swallowed. Any other exception propagates.

**`MSTestTestRunner`** wraps the MSTest console runner.
- It searches a fixed list of Visual Studio folders, then `PATH`, for `MSTest.exe`.
- It remembers the folder it found.
- It builds the `/testcontainer:"…" /test:"…"` command line.
- It reads exit code 0 as success.

## How it is modelled

Reflection becomes data.
- An `Assembly` has a name, a location, its loadable types (`TypeDesc`: full name, `IsClass`, `IsNested`, owning location) and its references in declared order.
- The runtime's three load calls are the total functions of a `Host`.
- Each load call returns a tagged `LoadOutcome`: `Loaded`, `NotFound` (`FileNotFoundException`), `Conflict` (`FileLoadException`) or `Faulted` (any other exception).
- `Faulted` and `SingleOrDefault`'s exception on a duplicate name propagate as a `Failure` value.

The graph walks are recursive functions. The source's mutable `consideredAssemblies` list is threaded through them as a value.
- They terminate because the host's reference names form a finite `universe`. `Closed(host)` says so: every assembly any load can return names only references in the universe.
- The measure is the number of universe names not yet considered.

Each operation is paired with an independent reference definition:
- `Walker.WalkFrom` is the depth-first pre-order of the assemblies reached. A walk that meets a load failure stops there and records it, keeping the order reached so far.
- The type search is proved to be the first match over that order (`TypeLookup.FirstMatch`). A failure decides the result only when no assembly reached before it declares the type.
- The namespace search is proved to be the concatenation of each reached assembly's filtered types (`NamespaceLookup.Gather`), or the walk's failure.
- The loader is proved to be an ordered fallback chain (`Loader.Chain`). Its first non-swallowed attempt decides the result.
- The command line is paired with a parser that reads it back (`MSTestRunner.ParseArguments`). The two are proved inverse in both directions.

`Environment.GetFolderPath`, the `PATH` variable, `Runtime.SearchPathSeparator` and `File.Exists` are parameters of the MSTest functions. The runner's one field, `_runnerPath`, is an explicit state value: every read returns the value and the state after it.

### Two consequences of the code

**The namespace boundary.** The public namespace search appends a `.` to the namespace before filtering (`TypeResolver.cs` line 91). So searching namespace `Acme.Foo` in an assembly declaring `Acme.Foo`, `Acme.FooExtra` and the nested `Acme.Foo.Inner` returns nothing: `Acme.Foo` is one character short of the prefix, `Acme.FooExtra` has `E` where the dot must be, and `Acme.Foo.Inner` is nested. `Scenarios.NamespaceBoundaryExcludesAll` proves this.

**The root can be searched twice.** Only reference names are put in the considered list, and the root's own name never is (line 54). So a back-reference to the root loads and searches the root a second time. `Scenarios.RootReenteredOnce` proves this. Every other name is considered at most once, which `Walker.WalkFromGrows` proves.

## Model

Source paths are relative to the repository root.

| member | source | states |
|---|---|---|
| Loader.Absorb | NinjaTurtlesMutation/TypeResolver.cs:119-137 | A load call's `FileNotFoundException` or `FileLoadException` becomes null. Any other exception becomes a propagating failure. A loaded assembly is passed through. |
| Loader.TryLoadIsChain | NinjaTurtlesMutation/TypeResolver.cs:119-137 | `TryLoad` loads by full-name string first. It loads by `AssemblyName` only when the first attempt was swallowed. |
| Loader.TryLoadFromIsChain | NinjaTurtlesMutation/TypeResolver.cs:139-154 | `TryLoadFrom` tries `basePath + ext` for each extension in order. It returns the first assembly, stops at a propagating failure, and returns null when every attempt is swallowed. |
| Loader.LoadReferencedIsChain | NinjaTurtlesMutation/TypeResolver.cs:41-49 | `LoadReferencedAssembly` is the four-step chain: full name, identity, then `<folder>\<name>.dll` and `.exe`. |
| Loader.LoadReferencedOrder | NinjaTurtlesMutation/TypeResolver.cs:39-49 | The first of the four attempts that is not swallowed decides the result. When all four are swallowed, the reference yields null. |
| Loader.DiskOnlyAfterIdentityMisses | NinjaTurtlesMutation/TypeResolver.cs:44-47 | The disk is consulted only when both identity loads were swallowed. Otherwise the file system cannot change the result. |
| Loader.DllBeforeExe | NinjaTurtlesMutation/TypeResolver.cs:139-154 | Once both identity loads miss, an assembly at the `.dll` path is returned whatever lies at the `.exe` path. |
| TypeLookup.SingleNamed | NinjaTurtlesMutation/TypeResolver.cs:65 | `SingleOrDefault` gives null exactly when no type has the name, and the unique match when one does. It fails exactly when two types share the name. |
| TypeLookup.FindIn | NinjaTurtlesMutation/TypeResolver.cs:62-86 | A found type has the requested full name. The number of universe names not yet considered never increases. |
| TypeLookup.SelfPriority | NinjaTurtlesMutation/TypeResolver.cs:62-70 | A type the root declares is returned with the considered list still empty, so no reference was loaded. |
| TypeLookup.FindInGrows | NinjaTurtlesMutation/TypeResolver.cs:71-84 | The considered list only grows, and each reference name is added at most once. |
| TypeLookup.FindInIsFirstMatch | NinjaTurtlesMutation/TypeResolver.cs:62-86 | The search returns the first match in depth-first, declared-reference order among the assemblies reached before any load failure, even when a later load would fail. It fails only with a failure met before any match. When nothing matches and no load fails, it has considered exactly the names the full walk considers. |
| TypeLookup.ResolveType | NinjaTurtlesMutation/TypeResolver.cs:51-60 | The public overload returns only a type of the requested name. |
| TypeLookup.ResolveTypeIsFirstMatch | NinjaTurtlesMutation/TypeResolver.cs:51-60 | On every closed host, the public result is the first match over the walk from the root with an empty considered list. Without a match it is the failure that stopped the walk. It is null, not an error, when the walk meets no failure and no reached assembly declares the name. |
| Walker.WalkFromGrows | NinjaTurtlesMutation/TypeResolver.cs:72-79 | On any graph, cyclic or not, each reference name is considered at most once. No more assemblies are reached after the start than names are newly considered. |
| Walker.WalkRefsGrows | NinjaTurtlesMutation/TypeResolver.cs:106-115 | The same for a reference list walked in declared order. |
| Walker.WalkFromRootConsidersOnce | NinjaTurtlesMutation/TypeResolver.cs:51-79 | From the public entry point's empty considered list, the considered names are distinct names of the universe, and at most one assembly besides the root is reached per considered name. |
| NamespaceLookup.Candidates | NinjaTurtlesMutation/TypeResolver.cs:102 | The `Where` filter keeps exactly the types whose name starts with the prefix, declared outside the excluded location, that are classes and not nested. A single type is kept exactly when it passes. |
| NamespaceLookup.CandidatesAppend | NinjaTurtlesMutation/TypeResolver.cs:102 | Filtering a concatenation gives the concatenation of the filtered parts. So the filter keeps declaration order, and keeps a type as many times as it is declared. |
| NamespaceLookup.CollectIn | NinjaTurtlesMutation/TypeResolver.cs:99-117 | Every collected type passes the filter. The number of universe names not yet considered never increases. |
| NamespaceLookup.CollectInGrows | NinjaTurtlesMutation/TypeResolver.cs:105-115 | The considered list only grows, by fresh names of the universe, each added at most once. |
| NamespaceLookup.CollectInIsGather | NinjaTurtlesMutation/TypeResolver.cs:99-117 | The namespace search is the full depth-first walk with the filter applied to every assembly reached. Results are appended in walk order. |
| NamespaceLookup.ResolveNamespaceTypes | NinjaTurtlesMutation/TypeResolver.cs:88-97 | Every returned type is a top-level class whose name starts with `nspace + "."` and which is not declared at the root's location. |
| NamespaceLookup.ResolveNamespaceTypesIsGather | NinjaTurtlesMutation/TypeResolver.cs:88-97 | On every closed host, the search fails exactly when a load on the walk fails, with that failure. Otherwise it returns the filtered types of the reached assemblies in walk order, and a type is returned if and only if it passes that filter and some reached assembly declares it. |
| NamespaceLookup.PrefixBoundary | NinjaTurtlesMutation/TypeResolver.cs:91 | A type named exactly `nspace`, or one whose name continues past `nspace` with anything other than `.`, is never returned. |
| Scenarios.RootReenteredOnce | NinjaTurtlesMutation/TypeResolver.cs:51-86 | For A -> B -> A searched from A: A, B, then A again are reached. The walk then ends, because A's reference to B is already considered. |
| Scenarios.DiamondLoadsSharedOnce | NinjaTurtlesMutation/TypeResolver.cs:72-84 | For A -> B, A -> C, B -> D, C -> D: D is reached once, under B, and skipped under C. |
| Scenarios.FaultingSiblingWalk | NinjaTurtlesMutation/TypeResolver.cs:72-84 | For A -> X, A -> Y where loading Y throws: the walk reaches A and X, considers both names, and stops with that failure. |
| Scenarios.FoundBeforeFaultingSibling | NinjaTurtlesMutation/TypeResolver.cs:77-83 | In that graph, with X declaring the type, the type search returns it without loading Y. The namespace search, which visits every reference, fails on Y. |
| Scenarios.FaultBeforeFound | NinjaTurtlesMutation/TypeResolver.cs:77-83 | When the first reference's load throws and the second declares the type, the type search fails with that exception and the walk never reaches the second. |
| Scenarios.SiblingFoundPastDeadBranch | NinjaTurtlesMutation/TypeResolver.cs:77-83 | A first reference that cannot be loaded does not stop the search. The type is found under the next sibling. |
| Scenarios.NamespaceBoundaryExcludesAll | NinjaTurtlesMutation/TypeResolver.cs:88-102 | Namespace `Acme.Foo` over `Acme.Foo`, `Acme.FooExtra` and nested `Acme.Foo.Inner` returns nothing. |
| Scenarios.NamespaceKeepsTopLevelClasses | NinjaTurtlesMutation/TypeResolver.cs:88-102 | Namespace `Acme` over the same assembly returns `Acme.Foo` and `Acme.FooExtra` in declaration order, but not the nested type. |
| Scenarios.NamespaceExcludesRootLocation | NinjaTurtlesMutation/TypeResolver.cs:91-102 | Matching types declared at the root's own location are left out. Only the referenced assembly's match is returned. |
| Scenarios.NamespaceKeepsDuplicates | NinjaTurtlesMutation/TypeResolver.cs:114 | The same class declared by two referenced assemblies is returned twice. Results are not deduplicated. |
| MSTestRunner.PathEntries | _OriginalSpike/NinjaTurtles/TestRunner/MSTestTestRunner.cs:72-74 | `PATH` (empty when unset) is split on the separator with empty entries removed. Every entry is non-empty and separator-free. |
| MSTestRunner.PathEntriesOfJoined | _OriginalSpike/NinjaTurtles/TestRunner/MSTestTestRunner.cs:72-74 | A `PATH` joined from separator-free segments yields exactly those segments, in order, with the empty ones (from `;;` or a leading or trailing `;`) dropped. Non-empty segments all come back. |
| MSTestRunner.PathTrailingSeparator | _OriginalSpike/NinjaTurtles/TestRunner/MSTestTestRunner.cs:72-74 | A `PATH` of one folder followed by a separator, as in `C:\tools;`, yields just that folder. |
| Strings.WithoutEmpty | _OriginalSpike/NinjaTurtles/TestRunner/MSTestTestRunner.cs:72-74 | `RemoveEmptyEntries` keeps exactly the non-empty pieces. A single piece is kept exactly when it is non-empty. |
| Strings.WithoutEmptyAppend | _OriginalSpike/NinjaTurtles/TestRunner/MSTestTestRunner.cs:72-74 | Dropping empty pieces distributes over concatenation, so order and repeats are kept. |
| MSTestRunner.PathEntriesOfUnset | _OriginalSpike/NinjaTurtles/TestRunner/MSTestTestRunner.cs:63-74 | An unset `PATH` contributes no folders. The search is then just the two or four Visual Studio folders. |
| MSTestRunner.SearchPath | _OriginalSpike/NinjaTurtles/TestRunner/MSTestTestRunner.cs:56-74 | The search order is: the Visual Studio 11.0 then 10.0 tools under Program Files; the same two under Program Files (x86) only when that folder is non-empty; then the `PATH` entries. |
| MSTestRunner.FindConsoleRunner | _OriginalSpike/NinjaTurtles/TestRunner/MSTestTestRunner.cs:54-83 | The empty string is returned exactly when no searched folder holds `MSTest.exe`. Otherwise the first such folder in search order is returned. |
| MSTestRunner.RunnerPath | _OriginalSpike/NinjaTurtles/TestRunner/MSTestTestRunner.cs:41-52 | A stored value that is not blank is returned without searching. Otherwise the search result is returned and stored. |
| MSTestRunner.RunnerPathMemoised | _OriginalSpike/NinjaTurtles/TestRunner/MSTestTestRunner.cs:41-50 | Once a read yields a folder that is not blank, every later read returns it unchanged, whatever the environment or file system then is. |
| MSTestRunner.RunnerPathRetriesWhileBlank | _OriginalSpike/NinjaTurtles/TestRunner/MSTestTestRunner.cs:45-48 | While the value read is blank, the next read searches again in the then-current environment. |
| MSTestRunner.CommandLineFileName | _OriginalSpike/NinjaTurtles/TestRunner/MSTestTestRunner.cs:90-93 | The file name ends in `MSTest.exe` and starts with the runner folder. It is the bare `MSTest.exe` when no folder was found. The runner state is that of the `RunnerPath` read. A folder that ends in `\`, `/` or `:` is followed directly by `MSTest.exe`. Any other non-empty folder gets exactly one `\` before it. |
| MSTestRunner.CommandLineFileNameDirectory | _OriginalSpike/NinjaTurtles/TestRunner/MSTestTestRunner.cs:90-93 | The executable's directory is the runner folder again, for a folder that does not end in a separator or colon. |
| MSTestRunner.TestArguments | _OriginalSpike/NinjaTurtles/TestRunner/MSTestTestRunner.cs:110 | Each test becomes `/test:"<name>"`, one per test, in input order. |
| MSTestRunner.CommandLineArguments | _OriginalSpike/NinjaTurtles/TestRunner/MSTestTestRunner.cs:108-113 | The arguments start with `/testcontainer:"<path>" `. With no tests, that is all of them, trailing space included. |
| MSTestRunner.CommandLineRoundTrip | _OriginalSpike/NinjaTurtles/TestRunner/MSTestTestRunner.cs:108-113 | The command line reads back as exactly the container path and the tests, in order, when neither contains a quote. |
| MSTestRunner.ParsedArgumentsAreCommandLine | _OriginalSpike/NinjaTurtles/TestRunner/MSTestTestRunner.cs:108-113 | Every string the reader accepts is the command line of what it reads from it. |
| MSTestRunner.InterpretExitCode | _OriginalSpike/NinjaTurtles/TestRunner/MSTestTestRunner.cs:124-127 | The suite passed exactly when the exit code is 0. |

## Left out

- Logging through NLog (`TypeResolver.cs` lines 53, 57, 64, 68, 90, 94, 101, 104): it does not affect control flow.
- Real reflection and assembly loading: `GetLoadableTypes`, `GetReferencedAssemblies` and the three `Assembly.Load*` calls are data and host functions. The runtime's probing, binding and load-context rules are not modelled.
- TypeLookup.ResolveType, NamespaceLookup.ResolveNamespaceTypes and the graph walks require `Closed(host)`: a finite universe of reference names. The source needs no such precondition, but it only terminates on finite graphs, and Dafny needs the finite universe to prove termination.
- Paths.Combine and Paths.DirectoryName: these model `Path.Combine` and `Path.GetDirectoryName` on backslash paths only.
  - An empty or white-space `Location`, as for an assembly loaded from bytes, is not an error in the model: `DirectoryName` returns `""` and the walk goes on. On .NET Framework, `Path.GetDirectoryName` throws `ArgumentException` for such a path at `TypeResolver.cs` lines 71 and 105, and the exception propagates. On .NET Core it returns null, and `Path.Combine` at line 47 throws instead.
  - Invalid-character exceptions are not modelled.
  - Neither function normalises `/` to `\`.
  - Neither gives root directories, UNC paths, or `null` their special treatment.
- NamespaceLookup.Candidates: `String.StartsWith(string)` is culture-sensitive in .NET. The model uses the ordinal prefix test.
- MSTestRunner.CommandLineRoundTrip: it requires that the path and the test names contain no `"`. The source does not escape quotes, so such names produce an ambiguous command line.
- The `ConsoleTestRunner` base class, process start-up and the `Dispose` override (`MSTestTestRunner.cs` from line 129) are not part of this model. The modelled members are the `RunnerPath` getter, `FindConsoleRunner`, and the three overrides `GetCommandLineFileName`, `GetCommandLineArguments` and `InterpretExitCode`.
- The `RunnerPath` setter (line 51) is modelled only through its one use: the search stores the folder it found. The getter then stores the same value again.
- `Environment.GetFolderPath`, `Environment.GetEnvironmentVariable("PATH")`, `Runtime.SearchPathSeparator` and `File.Exists` are parameters. A special folder is a string, empty when unknown.
- `string.Format` and `string.Join` over `null` test names: test names are plain strings.
