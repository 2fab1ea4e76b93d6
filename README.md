# UserBasePlugin build bookkeeping, in Dafny

ForgeGradle's `UserBasePlugin` turns a Gradle project into a Minecraft mod
workspace. Behind its Gradle calls is a small layer of bookkeeping, and this
project models that layer:

- **The cache flag.** `useLocalCache` is a one-way flag. It chooses between the
  global and the project-local artifact patterns. It is recomputed from the
  extension only while it is false, and collecting access transformers (ATs)
  can only set it.
- **Path naming.**
  - `chooseDeobfOutput` names the jars of the decompilation chain. It picks a
    pattern by the flag, formats it with `String.format`, and adds an optional
    `-classifier` and `.jar`.
  - `getFile` lays out deobfuscated dependencies as a Maven repository.
- **Dependency remapping.** `remapDeps` plans the tasks for one deobfuscation
  configuration. It checks that every declared dependency is a Maven/Ivy module.
  It then registers one binary deobfuscation task and one `deobf.<group>`
  coordinate per resolved artifact, and at most one sources-remapping task per
  resolved component. One counter names all of these tasks.
- **The decompilation chain.** `makeDecompTasks` wires deobfuscate (markers on),
  decompile, fix sources, remap, recompile, a separate binary deobfuscation
  (markers off), and GradleStart. The `madeDecompTasks` guard makes
  `afterEvaluate` fail when that wiring never ran.
- **AT collection.** `AT_SPEC` selects AT files. `addAtsToDeobf` and the `doLast`
  of the dependency-AT extraction give both deobfuscation tasks the same ATs, in
  the same order.

The plugin object is the class `UserBase.UserBasePlugin`. Registering a task
appends a `Task` record (name, kind, input jar, output jar) to `tasks`. A
`dependsOn` or `mustRunAfter` call appends an `Edge`. Adding a dependency to a
configuration appends a coordinate to `dependencies`. Gradle's hooks and lazy
closures become explicit method calls; when they run, and in which order, is up
to the caller. A
`chooseDeobfOutput` closure or a `getFile` delayed file is a `FileRef` value,
which `Tasks.ResolveFile` resolves against the flag as it stands at resolution
time. The pure parts live in these modules:

- `ArtifactPaths`: paths and coordinates;
- `AccessTransformerFiles`: the AT filter;
- `CachePolicy`: the flag as a history of events;
- `Tasks`: task records and the decompilation chain;
- `DepRemap`: the remapping plan.

The `Text` module models `toLowerCase`, `toUpperCase` and `Integer.toString`.
It also holds two reference functions the source does not call: `SplitOn`, with
which the layout and round-trip lemmas read paths and coordinates back, and
`DecimalValue`, which reads a printed counter back. `Wrappers` holds `Option`, `Result` and `Outcome`.

Exceptions become results:

- a failed `getByName` of a deobfuscation task in `addAtsToDeobf` or in the dependency-AT `doLast` is `Fail(UnknownTask(name))`;
- the `afterEvaluate` guards are `Fail(DecompTasksNotMade)` and `Fail(RunDirNotSet)`;
- the configuration error of `remapDeps` is `Fail(NotExternalModule)`;
- `String.format` errors are `Err(UnsupportedConversion)`, found while the whole pattern is parsed, and then `Err(MissingFormatArgument)`;
- `substring` on an empty source-set name is `None`.

## Model

All source paths are in `src/main/java/net/minecraftforge/gradle/user/UserBasePlugin.java`.

| member | source | states |
|---|---|---|
| UserBase.UserBasePlugin.constructor | src/main/java/net/minecraftforge/gradle/user/UserBasePlugin.java:100-101 | a new plugin starts with the flag and the `madeDecompTasks` guard false, no tasks, no edges, no ATs and no added coordinates |
| CachePolicy.NextFlag | src/main/java/net/minecraftforge/gradle/user/UserBasePlugin.java:399-407 | after one event the flag is true exactly when it was true or the event pins it; an event never clears it |
| CachePolicy.FlagAfter | src/main/java/net/minecraftforge/gradle/user/UserBasePlugin.java:399-407 | the flag after a run of `useLocalCache` queries and AT collections (825), event by event; the plugin's invariant ties its field to this function |
| CachePolicy.PinnedFlagStays | src/main/java/net/minecraftforge/gradle/user/UserBasePlugin.java:399-407 | once the flag is true, it stays true whatever events follow |
| CachePolicy.FlagAfterExactly | src/main/java/net/minecraftforge/gradle/user/UserBasePlugin.java:399-407 | after a run of events the flag is true exactly when it started true or some event pinned it |
| CachePolicy.FlagAfterAppend | src/main/java/net/minecraftforge/gradle/user/UserBasePlugin.java:399-407 | running two stretches of events gives the same flag as running their concatenation |
| UserBase.UserBasePlugin.UseLocalCache | src/main/java/net/minecraftforge/gradle/user/UserBasePlugin.java:399-407 | the result is true exactly when the flag already was, or the extension lists ATs, or `useDepAts` is set; the field takes the result; the invariant that the field follows its event history is kept |
| ArtifactPaths.FormatFrom | src/main/java/net/minecraftforge/gradle/user/UserBasePlugin.java:385 | the formatting pass over a well-formed pattern succeeds exactly when the pattern holds at most one `%s`, counting the argument as already used when it is, and otherwise fails only with a missing-argument error |
| ArtifactPaths.Format | src/main/java/net/minecraftforge/gradle/user/UserBasePlugin.java:385 | `String.format` with one argument reports an unsupported conversion exactly when the pattern is malformed anywhere, a missing argument exactly when a well-formed pattern has two or more `%s`, and succeeds exactly when it has at most one |
| ArtifactPaths.ConversionsValidLiteralPrefix | src/main/java/net/minecraftforge/gradle/user/UserBasePlugin.java:385 | literal text before a pattern changes neither whether it parses nor how many `%s` it holds |
| ArtifactPaths.TwoPlaceholdersValid | src/main/java/net/minecraftforge/gradle/user/UserBasePlugin.java:385 | a pattern with two `%s` among literal text parses exactly when the text after them does |
| ArtifactPaths.FormatParsesFirst | src/main/java/net/minecraftforge/gradle/user/UserBasePlugin.java:385 | in a pattern with two `%s`, a malformed conversion anywhere after them is reported as the unsupported conversion, not as the missing argument |
| ArtifactPaths.FormatLiteral | src/main/java/net/minecraftforge/gradle/user/UserBasePlugin.java:385 | `String.format` leaves a pattern without `%` unchanged and ignores the unused argument |
| ArtifactPaths.FormatLiteralPrefix | src/main/java/net/minecraftforge/gradle/user/UserBasePlugin.java:385 | `String.format` copies literal text before the first conversion and formats the rest |
| ArtifactPaths.FormatSinglePlaceholder | src/main/java/net/minecraftforge/gradle/user/UserBasePlugin.java:385 | a pattern `pre%spost` with no other `%` formats to `pre + appendage + post` |
| ArtifactPaths.FormatSecondPlaceholderFails | src/main/java/net/minecraftforge/gradle/user/UserBasePlugin.java:385 | in a pattern whose every conversion parses, a second `%s` has no argument left and the format fails with a missing-argument error |
| ArtifactPaths.DeobfOutputPath | src/main/java/net/minecraftforge/gradle/user/UserBasePlugin.java:380-388 | the name succeeds exactly when the pattern chosen by the flag formats; it is then the formatted pattern, followed by `-classifier` unless the classifier is null or empty, followed by `.jar` |
| ArtifactPaths.DeobfOutputShape | src/main/java/net/minecraftforge/gradle/user/UserBasePlugin.java:380-388 | with a one-placeholder pattern the name is `pre + appendage + post + [-classifier] + .jar` |
| Tasks.ResolveFile | src/main/java/net/minecraftforge/gradle/user/UserBasePlugin.java:380-388 | a file reference resolves to its path under the flag given; only a `chooseDeobfOutput` closure can fail, when its pattern does not format |
| UserBase.UserBasePlugin.ResolveDeobfOutput | src/main/java/net/minecraftforge/gradle/user/UserBasePlugin.java:380-388 | calling a closure asks `useLocalCache` at that moment and resolves the output reference with the answer |
| ArtifactPaths.ReplaceDots | src/main/java/net/minecraftforge/gradle/user/UserBasePlugin.java:622 | every `.` becomes `/`, every other character stays, the length is kept, so no `.` is left |
| ArtifactPaths.ReplaceDotsSegments | src/main/java/net/minecraftforge/gradle/user/UserBasePlugin.java:622 | for a group without `/`, the directories the group becomes are exactly its dot-separated parts |
| ArtifactPaths.IsNullOrEmpty | src/main/java/net/minecraftforge/gradle/user/UserBasePlugin.java:383 | Guava's `Strings.isNullOrEmpty`: a null (absent) or empty classifier; also at 623 |
| ArtifactPaths.ClassifierSuffix | src/main/java/net/minecraftforge/gradle/user/UserBasePlugin.java:383 | the `-classifier` part of a file name, empty exactly when the classifier is null or empty; also at 623 |
| ArtifactPaths.MavenFileName | src/main/java/net/minecraftforge/gradle/user/UserBasePlugin.java:623 | the jar's file name, `name-version`, then `-classifier` when the classifier is non-empty, then `.jar` |
| ArtifactPaths.MavenPath | src/main/java/net/minecraftforge/gradle/user/UserBasePlugin.java:620-624 | the path starts with `baseDir/` and ends with `/name-version[-classifier].jar` |
| ArtifactPaths.MavenPathLayout | src/main/java/net/minecraftforge/gradle/user/UserBasePlugin.java:620-624 | split at `/`, the path is the base directory's parts, the group's dot-separated parts, then name, version and file name |
| ArtifactPaths.DeobfGroup | src/main/java/net/minecraftforge/gradle/user/UserBasePlugin.java:576 | the synthetic group of a deobfuscated dependency, `deobf.` in front of the original group |
| ArtifactPaths.DeobfGroupSegments | src/main/java/net/minecraftforge/gradle/user/UserBasePlugin.java:576 | the synthetic group's dot-separated parts are `deobf` followed by the group's own parts |
| ArtifactPaths.Coordinate | src/main/java/net/minecraftforge/gradle/user/UserBasePlugin.java:589 | the `group:name:version` coordinate added for a deobfuscated dependency |
| ArtifactPaths.CoordinateRoundTrip | src/main/java/net/minecraftforge/gradle/user/UserBasePlugin.java:589 | a `group:name:version` coordinate splits back into its three parts when none of them contains `:` |
| Text.UpperChar | src/main/java/net/minecraftforge/gradle/user/UserBasePlugin.java:473 | upper-casing the one-letter first substring of a source-set name |
| Text.ToLower | src/main/java/net/minecraftforge/gradle/user/UserBasePlugin.java:86 | lower-casing keeps the length and lower-cases each character in place |
| Text.ToLowerIdempotent | src/main/java/net/minecraftforge/gradle/user/UserBasePlugin.java:86 | lower-casing twice is lower-casing once |
| AccessTransformerFiles.IsAtFile | src/main/java/net/minecraftforge/gradle/user/UserBasePlugin.java:83-88 | `AT_SPEC` accepts only regular files whose name is long enough to hold `_at.cfg` |
| AccessTransformerFiles.IsAtFileCharacterised | src/main/java/net/minecraftforge/gradle/user/UserBasePlugin.java:83-88 | `AT_SPEC` accepts exactly the regular files whose last seven characters, lower-cased, are `_at.cfg`, so the test ignores case |
| AccessTransformerFiles.AtFiles | src/main/java/net/minecraftforge/gradle/user/UserBasePlugin.java:818 | the filtered sources hold exactly the files of the sources that pass `AT_SPEC`, and no more of them |
| UserBase.ExtensionAtEntries | src/main/java/net/minecraftforge/gradle/user/UserBasePlugin.java:812-813 | the extension's AT names as entries for `addAts`, one per name, in order |
| UserBase.FileAtEntries | src/main/java/net/minecraftforge/gradle/user/UserBasePlugin.java:820-821 | AT files as entries for `addAt`, one per file, in order; also the files handed over at 646-647 |
| UserBase.UserBasePlugin.AddAtsToDeobf | src/main/java/net/minecraftforge/gradle/user/UserBasePlugin.java:805-826 | a missing deobfuscation task fails before any change; otherwise both tasks get the extension's ATs, then every AT file of the sources, in order and the same for both; the flag becomes true exactly when it was, or `useDepAts` is set, or a file was found |
| UserBase.UserBasePlugin.ExtractDepAtsDoLast | src/main/java/net/minecraftforge/gradle/user/UserBasePlugin.java:633-649 | without `useDepAts` the task is skipped and nothing changes; otherwise a missing deobfuscation task fails before any change, and else both tasks get every extracted file, in order, and they keep the same AT list |
| UserBase.UserBasePlugin.AfterEvaluate | src/main/java/net/minecraftforge/gradle/user/UserBasePlugin.java:151-182 | it fails when the decompilation tasks were never made, then when the run directory is null or empty, and changes nothing in either case; otherwise it collects ATs as `addAtsToDeobf` does |
| Tasks.DecompTasks | src/main/java/net/minecraftforge/gradle/user/UserBasePlugin.java:248-346 | seven tasks, in order: the binary deobfuscation applies Notch-to-MCP names without markers, the other deobfuscation Notch-to-SRG with markers, both read the input jar; then decompile (FernFlower), fix sources, remap sources and recompile, each reading the previous stage's output; last the GradleStart task, with no jars; the six outputs carry their appendage and classifier |
| Tasks.DeobfPrerequisites | src/main/java/net/minecraftforge/gradle/user/UserBasePlugin.java:261 | the five dependencies each deobfuscation task declares: the input task, SRG generation, the dependency-AT extraction and the two dummy tasks (also at 278) |
| Tasks.ChainEdges | src/main/java/net/minecraftforge/gradle/user/UserBasePlugin.java:287-316 | decompile on the decompilation deobfuscation, fix on decompile, remap on fix, recompile on remap and on the version JSON download |
| Tasks.MakeStartEdges | src/main/java/net/minecraftforge/gradle/user/UserBasePlugin.java:333-345 | GradleStart depends on the asset index, the assets and the natives, and must run after the binary deobfuscation and the recompilation |
| Tasks.SetupEdges | src/main/java/net/minecraftforge/gradle/user/UserBasePlugin.java:352-353 | the CI setup waits for the binary deobfuscation, the dev setup for it and for GradleStart |
| Tasks.DecompEdges | src/main/java/net/minecraftforge/gradle/user/UserBasePlugin.java:261-353 | the edges `makeDecompTasks` adds, in the order of its calls: both deobfuscations' prerequisites, the chain, GradleStart's, then the setup tasks' |
| Tasks.DecompChainLinked | src/main/java/net/minecraftforge/gradle/user/UserBasePlugin.java:264-316 | from decompile to recompile, every stage depends on the stage before it and reads that stage's output; both deobfuscations depend on the input task |
| Tasks.StageFileNamesDistinct | src/main/java/net/minecraftforge/gradle/user/UserBasePlugin.java:260-268 | the six stage file names differ whatever text surrounds the placeholder |
| Tasks.DecompOutputsDistinct | src/main/java/net/minecraftforge/gradle/user/UserBasePlugin.java:260-268 | whichever pattern the flag picks, a one-placeholder pattern sends the six stages to six different files |
| UserBase.UserBasePlugin.MakeDecompTasks | src/main/java/net/minecraftforge/gradle/user/UserBasePlugin.java:248-353 | sets the guard and appends exactly the chain's seven tasks and its edges, in source order; both deobfuscation tasks start without ATs |
| UserBase.UserBasePlugin.DecompAfterEvaluate | src/main/java/net/minecraftforge/gradle/user/UserBasePlugin.java:357-368 | a failed project changes nothing; otherwise both compile tasks depend on the binary deobfuscation and `afterDecomp` receives the answer of `useLocalCache` |
| UserBase.SourceTaskPrefix | src/main/java/net/minecraftforge/gradle/user/UserBasePlugin.java:473-474 | an empty name fails; otherwise the prefix is `source`, the upper-cased first letter, then the rest of the name |
| UserBase.SourceTaskPrefixCollision | src/main/java/net/minecraftforge/gradle/user/UserBasePlugin.java:473-474 | two source sets share a prefix exactly when their names differ at most in the case of the first letter |
| UserBase.SourceTaskPrefixIgnoresFirstCase | src/main/java/net/minecraftforge/gradle/user/UserBasePlugin.java:473-474 | upper-casing a name's first letter beforehand never changes its prefix, so `main` and `Main` clash |
| DepRemap.AllExternalModules | src/main/java/net/minecraftforge/gradle/user/UserBasePlugin.java:561-565 | the condition the check loop enforces: every declared dependency is a Maven/Ivy module |
| UserBase.UserBasePlugin.AllExternal | src/main/java/net/minecraftforge/gradle/user/UserBasePlugin.java:561-565 | the check passes exactly when every declared dependency is an external module |
| DepRemap.TaskEdges | src/main/java/net/minecraftforge/gradle/user/UserBasePlugin.java:586-587 | two edges per generated task: the task on the mapping extraction, the dummy task on the task |
| DepRemap.DeobfDepTaskName | src/main/java/net/minecraftforge/gradle/user/UserBasePlugin.java:581 | the binary task's name, the configuration name, `DeobfDepTask`, then the counter in decimal |
| DepRemap.SourcesTaskName | src/main/java/net/minecraftforge/gradle/user/UserBasePlugin.java:607 | the sources task's name, the configuration name, `RemapDepSourcesTask`, then the counter in decimal |
| DepRemap.DeobfDepOutput | src/main/java/net/minecraftforge/gradle/user/UserBasePlugin.java:583 | the `getFile` reference for a deobfuscated jar: the dependency directory, the module's `deobf.` group, its name and version, no classifier |
| DepRemap.SourcesOutput | src/main/java/net/minecraftforge/gradle/user/UserBasePlugin.java:609 | the `getFile` reference for remapped sources: as the deobfuscated jar, with the `sources` classifier |
| DepRemap.DeobfDepTask | src/main/java/net/minecraftforge/gradle/user/UserBasePlugin.java:581-583 | a single-jar deobfuscation reading the artifact's file and writing the module's `deobf.` Maven jar |
| DepRemap.SourcesTask | src/main/java/net/minecraftforge/gradle/user/UserBasePlugin.java:607-609 | a sources remapping reading the sources jar and writing the module's `deobf.` Maven jar with the `sources` classifier |
| DepRemap.DeobfCoordinate | src/main/java/net/minecraftforge/gradle/user/UserBasePlugin.java:589 | the coordinate added for a module: its `deobf.` group, its name and its version |
| DepRemap.DeobfDepTasks | src/main/java/net/minecraftforge/gradle/user/UserBasePlugin.java:574-590 | one binary deobfuscation task per artifact, in order, numbered on from the start id, reading the artifact's jar |
| DepRemap.Coordinates | src/main/java/net/minecraftforge/gradle/user/UserBasePlugin.java:589 | one `deobf.` coordinate per artifact, in order |
| DepRemap.CoordinatesMatchOutputs | src/main/java/net/minecraftforge/gradle/user/UserBasePlugin.java:583-589 | each added coordinate splits into the synthetic group, name and version that the matching task's output file is laid out by |
| DepRemap.DeobfDepOutputLayout | src/main/java/net/minecraftforge/gradle/user/UserBasePlugin.java:583 | a deobfuscated dependency lands at `deobf/<group parts>/name/version/name-version.jar` under the dependency directory |
| UserBase.AddAll | src/main/java/net/minecraftforge/gradle/user/UserBasePlugin.java:589 | adding coordinates to one configuration appends them, in order, to what it already holds, and leaves every other configuration as it was |
| UserBase.UserBasePlugin.RegisterBinary | src/main/java/net/minecraftforge/gradle/user/UserBasePlugin.java:575-589 | one pass of the artifact loop appends its task, the task's two edges and the artifact's coordinate |
| UserBase.UserBasePlugin.RegisterBinaries | src/main/java/net/minecraftforge/gradle/user/UserBasePlugin.java:574-590 | the artifact loop appends exactly the planned binary tasks and their edges, adds the coordinates in order, learns every artifact's module and leaves the counter at the number of artifacts |
| UserBase.UserBasePlugin.AddDependencyComponents | src/main/java/net/minecraftforge/gradle/user/UserBasePlugin.java:592-594 | the component map learns the component every dependency result starts from |
| DepRemap.IdMapWithArtifacts | src/main/java/net/minecraftforge/gradle/user/UserBasePlugin.java:571-590 | the `idMap` after the artifact loop's `put`s; a later artifact of the same component overwrites the entry |
| DepRemap.IdMapWithResults | src/main/java/net/minecraftforge/gradle/user/UserBasePlugin.java:592-594 | the `idMap` after the dependency-result loop's `put`s |
| DepRemap.IdMap | src/main/java/net/minecraftforge/gradle/user/UserBasePlugin.java:571-594 | the map the sources query is made for: the artifacts' entries, then the dependency results' |
| DepRemap.IdMapKeys | src/main/java/net/minecraftforge/gradle/user/UserBasePlugin.java:571-597 | the sources query covers exactly the artifacts' components and the components that dependencies start from |
| DepRemap.WithSources | src/main/java/net/minecraftforge/gradle/user/UserBasePlugin.java:601-617 | the components that get a sources task, in query order, never more than were returned |
| DepRemap.SourcesTasks | src/main/java/net/minecraftforge/gradle/user/UserBasePlugin.java:601-617 | the planned sources tasks, one per component with a sources jar, numbered on from the given id |
| DepRemap.WithSourcesMembers | src/main/java/net/minecraftforge/gradle/user/UserBasePlugin.java:601-617 | a component gets a sources task exactly when it is in the query result and has a sources jar |
| DepRemap.SourcesTaskAt | src/main/java/net/minecraftforge/gradle/user/UserBasePlugin.java:601-617 | the k-th sources task remaps only the first jar of the k-th component that has sources, into that module's `-sources` jar, numbered after all earlier tasks |
| UserBase.UserBasePlugin.RegisterSource | src/main/java/net/minecraftforge/gradle/user/UserBasePlugin.java:602-616 | one pass of the component loop appends one task for the first sources jar, or nothing when there is none, and moves the counter by as many tasks |
| UserBase.UserBasePlugin.RegisterSources | src/main/java/net/minecraftforge/gradle/user/UserBasePlugin.java:601-617 | the component loop appends exactly the planned sources tasks and their edges, and the counter grows by the number of components with sources |
| DepRemap.DummyDependsOnAll | src/main/java/net/minecraftforge/gradle/user/UserBasePlugin.java:586-587 | every generated task depends on the mapping extraction, and the dummy task depends on every generated task |
| Text.NatToString | src/main/java/net/minecraftforge/gradle/user/UserBasePlugin.java:581 | `Integer.toString` of the counter: a non-empty string of decimal digits |
| Text.NatToStringInjective | src/main/java/net/minecraftforge/gradle/user/UserBasePlugin.java:581 | different counter values print differently |
| DepRemap.GeneratedNamesDiffer | src/main/java/net/minecraftforge/gradle/user/UserBasePlugin.java:581 | a binary task name never equals a sources task name, and within one loop different ids give different names |
| DepRemap.GeneratedNamesDistinct | src/main/java/net/minecraftforge/gradle/user/UserBasePlugin.java:567-607 | all tasks generated for a configuration, numbered by the one shared counter, have pairwise different names |
| UserBase.UserBasePlugin.RemapDeps | src/main/java/net/minecraftforge/gradle/user/UserBasePlugin.java:559-618 | it fails exactly when a declared dependency is not an external module, and then changes nothing; otherwise it appends the binary tasks and then the sources tasks, numbered by one counter from 0, with their edges, and adds every artifact's coordinate |

## Left out

- Gradle wiring is not modelled:
  - plugin application, `configureCompilation`, `mapConfigurations` and `makeRunTasks`;
  - the rest of `afterEvaluate`: replacements, source copy tasks, reobf and upload dependencies, GradleStart, run classpaths;
  - the reobf `jar` creation in `makeDecompTasks`;
  - `getDummyDep`.
- IntelliJ integration (`configureIdea`, `injectIntellijRuns`) is not modelled. It is XML editing and filesystem probing.
- The SemVer warning in `afterEvaluate` only logs, and its regex is not modelled.
- The source copy and retromapping task registration are left out. Only the `"source" + capitalised name` derivation is modelled.
- The internals of the tasks are left out: deobfuscation, FernFlower, post-decompilation, remapping, recompilation and GradleStart generation. Each task is a record of its name, kind, input jar and output jar.
- Task settings that are only forwarded are not recorded. These are mapping and CSV files, patches, classpaths and GradleStart replacements.
- Gradle dependency resolution and the artifact-resolution query are inputs, given as lists in resolution order.
- `UserBase.UserBasePlugin.RemapDeps`: the sources query answers only for components it was asked about, so the model requires every returned component to be in the component map. An unknown component would fail with a null dereference in the source.
- Token expansion in `delayedFile` is not modelled, because `BasePlugin` is not part of this model. A file reference resolves to the unexpanded path.
- The values of `UserConstants` and `Constants` are not part of this model. Stand-in names are used, and no proof depends on their values.
- `Tasks.DecompTasks`: the GradleStart task's resource list is not recorded.
- `makeTask` rejects a duplicate task name, and the model does not. The model proves instead that the names `remapDeps` generates are distinct.
- `UserBase.UserBasePlugin.RegisterBinaries`: the model does not wrap the task counter at 2^31, because no configuration has that many artifacts.
- `Text.ToLower`: case mapping covers only the ASCII letters, not Java's full Unicode case mapping, and assumes a default locale that is not Turkic: under `tr` or `az`, `I` lower-cases to the dotless `ı`.
- `ArtifactPaths.Format`: only the `%s` and `%%` conversions are modelled. Any other `%`, the ones Java accepts such as `%n` or `%d` included, is reported as an unsupported conversion.
- `AccessTransformerFiles.AtFiles`: `getFiles()` returns a set, which the model keeps as the filtered sequence in source order, so duplicate entries are not merged.
- `afterEvaluate` and its hooks are modelled as separate method calls. The model does not capture the order in which Gradle runs the hooks.
- `super.afterEvaluate()` (line 162) runs `BasePlugin`'s own evaluation hook, and `BasePlugin` is not part of this model.
- `UserBase.UserBasePlugin.RegisterSource` and `UserBase.UserBasePlugin.RemapDeps`: every sources query result is taken to be resolved. Line 608 casts the first sources artifact to a resolved result; an unresolved one would throw a `ClassCastException` after the earlier components' tasks, and the failing component's own task (made at line 607, with the counter already moved on), were registered; the model has no such failure.
- `UserBase.SourceTaskPrefix`: the first letter is upper-cased only for the ASCII letters. Java's `String.toUpperCase` also maps letters such as `é` to `É`, and turns `ß` into the two letters `SS`, which makes the prefix one character longer than the model's length clause says. The model also assumes a default locale that is not Turkic: under `tr` or `az`, a set named `integration` gets `sourceİntegration`, not `sourceIntegration`.
- `UserBase.SourceTaskPrefixCollision`: it holds for the ASCII case mapping. Under Java's mapping more names collide: `ßx` and `SSx` both give `sourceSSx`, which the lemma's condition does not describe.
- `UserBase.UserBasePlugin.MakeDecompTasks` and `UserBase.UserBasePlugin.DecompAfterEvaluate`: the `getByName` lookups of the two setup tasks (lines 352-353) and of `compileJava` and `compileApiJava` (lines 363-364) are taken to succeed, so these edges are added with no failure path. The tasks exist before these calls: `applyPlugin` makes the setup tasks (lines 111-119), the java plugin applied at line 106 makes `compileJava`, and the `api` source set created at line 419 brings `compileApiJava`. They are not recorded in `tasks`.
- `Text.UpperChar`: upper-cases the ASCII letters only, not Java's full Unicode case mapping, and assumes a default locale that is not Turkic, where `i` would become the dotted `İ`.
- Logging of found ATs is left out.
