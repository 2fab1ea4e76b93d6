/**
 * The build-context bookkeeping of `UserBasePlugin`: the `useLocalCache` and
 * `madeDecompTasks` fields, the tasks and dependency edges the plugin
 * registers, the access-transformer inputs of the two deobfuscation tasks and
 * the coordinates added to the resolved configurations. Gradle's lazy hooks
 * become explicit method calls; when they run, and in which order, is up to
 * the caller.
 */
module UserBase {
  import opened Wrappers
  import opened Text
  import opened ArtifactPaths
  import opened AccessTransformerFiles
  import opened CachePolicy
  import opened Tasks
  import opened DepRemap

  /** The parts of the user extension the modelled code reads. */
  datatype Extension = Extension(
    /** `getAccessTransformers()`, the ATs listed in the build script */
    accessTransformers: seq<string>,
    /** `isUseDepAts()` */
    useDepAts: bool,
    /** `getResolvedAccessTransformerSources()`, the files under the AT source directories, in order */
    atSources: seq<FileEntry>,
    /** `getRunDir()`, which may be null */
    runDir: Option<string>)

  /** One access-transformer input of a deobfuscation task. */
  datatype AtEntry =
    /** an entry of the extension's AT list, added with `addAts` */
    | ExtensionAt(source: string)
    /** a file found on disk, added with `addAt` */
    | AtFile(file: FileEntry)

  datatype PluginError =
    /** `afterEvaluate` ran although `makeDecompTasks` never did */
    | DecompTasksNotMade
    /** `afterEvaluate` found no run directory */
    | RunDirNotSet
    /** `getByName` found no task of that name */
    | UnknownTask(name: string)
    /** `remapDeps` met a declared dependency that is not a Maven/Ivy module */
    | NotExternalModule

  function ExtensionAtEntries(ats: seq<string>): (r: seq<AtEntry>)
    ensures |r| == |ats| && forall k :: 0 <= k < |ats| ==> r[k] == ExtensionAt(ats[k])
  {
    seq(|ats|, k requires 0 <= k < |ats| => ExtensionAt(ats[k]))
  }

  function FileAtEntries(files: seq<FileEntry>): (r: seq<AtEntry>)
    ensures |r| == |files| && forall k :: 0 <= k < |files| ==> r[k] == AtFile(files[k])
  {
    seq(|files|, k requires 0 <= k < |files| => AtFile(files[k]))
  }

  /** The coordinates already added to a configuration. */
  function Added(deps: map<string, seq<string>>, config: string): seq<string> {
    if config in deps then deps[config] else []
  }

  /** `deps` after adding `coords` to `config` one by one. */
  function AddAll(deps: map<string, seq<string>>, config: string, coords: seq<string>): (r: map<string, seq<string>>)
    ensures Added(r, config) == Added(deps, config) + coords
    ensures forall c :: c != config ==> Added(r, c) == Added(deps, c)
  {
    if coords == [] then deps else deps[config := Added(deps, config) + coords]
  }

  /** Adding two runs of coordinates one after the other. */
  lemma AddAllAppend(deps: map<string, seq<string>>, config: string, xs: seq<string>, ys: seq<string>)
    ensures AddAll(AddAll(deps, config, xs), config, ys) == AddAll(deps, config, xs + ys)
  {
    if xs == [] {
      assert xs + ys == ys;
    } else if ys == [] {
      assert xs + ys == xs;
    } else {
      AppendAssociative(Added(deps, config), xs, ys);
    }
  }



  /**
   * The name prefix of a source set's copy tasks: `source` and the set's name
   * with its first letter upper-cased. An empty name has no first letter and
   * fails.
   */
  function SourceTaskPrefix(setName: string): (r: Option<string>)
    ensures r.None? <==> setName == []
    ensures r.Some? ==> && StartsWith(r.value, "source") && |r.value| == 6 + |setName|
                        && r.value[6] == UpperChar(setName[0]) && r.value[7..] == setName[1..]
  {
    if setName == [] then None
    else
      var r := "source" + [UpperChar(setName[0])] + setName[1..];
      assert r[7..] == setName[1..];
      Some(r)
  }

  /** Two source sets share a task prefix exactly when their names differ at most in the case of the first letter. */
  lemma SourceTaskPrefixCollision(a: string, b: string)
    requires a != [] && b != []
    ensures SourceTaskPrefix(a) == SourceTaskPrefix(b) <==> UpperChar(a[0]) == UpperChar(b[0]) && a[1..] == b[1..]
  {
    var pa, pb := SourceTaskPrefix(a).value, SourceTaskPrefix(b).value;
    if UpperChar(a[0]) == UpperChar(b[0]) && a[1..] == b[1..] {
      assert pa == "source" + [UpperChar(a[0])] + a[1..];
      assert pb == "source" + [UpperChar(b[0])] + b[1..];
    }
  }

  /**
   * Only the case of the first letter is lost: upper-casing it beforehand gives
   * the same prefix, so `main` and `Main` would get clashing copy tasks.
   */
  lemma SourceTaskPrefixIgnoresFirstCase(name: string)
    requires name != []
    ensures SourceTaskPrefix(name) == SourceTaskPrefix([UpperChar(name[0])] + name[1..])
  {
    var up := [UpperChar(name[0])] + name[1..];
    assert up[0] == UpperChar(name[0]) && up[1..] == name[1..];
    SourceTaskPrefixCollision(name, up);
  }

  predicate Registered(ts: seq<Task>, name: string) {
    exists k :: 0 <= k < |ts| && ts[k].name == name
  }

  class UserBasePlugin {
    /** The expanded `DIR_DEOBF_DEPS`, the local repository for deobfuscated dependencies. */
    const depsDir: string
    /** The `useLocalCache` field. */
    var useLocalCache: bool
    /** The `madeDecompTasks` guard. */
    var madeDecompTasks: bool
    /** The tasks registered so far, in registration order. */
    var tasks: seq<Task>
    /** The `dependsOn` / `mustRunAfter` edges declared so far, in order. */
    var edges: seq<Edge>
    /** The AT inputs of the binary deobfuscation task (`TASK_DEOBF_BIN`). */
    var binAts: seq<AtEntry>
    /** The AT inputs of the deobfuscation task that feeds the decompiler (`TASK_DEOBF`). */
    var decompAts: seq<AtEntry>
    /** The coordinates added to each configuration. */
    var dependencies: map<string, seq<string>>
    /** Everything that has touched the cache flag so far. */
    ghost var flagHistory: seq<FlagEvent>
    /** Where `makeDecompTasks` registered the binary deobfuscation task, the other one right after it. */
    ghost var deobfAt: nat

    predicate HasTask(name: string)
      reads this
    {
      Registered(tasks, name)
    }

    /**
     * The flag is what its history makes of a false flag, both deobfuscation
     * tasks hold the same ATs in the same order, and once the decompilation
     * tasks are made both deobfuscation tasks exist.
     */
    ghost predicate Valid()
      reads this
    {
      && useLocalCache == FlagAfter(false, flagHistory)
      && binAts == decompAts
      && (madeDecompTasks ==>
            deobfAt + 1 < |tasks| && tasks[deobfAt].name == TaskDeobfBin && tasks[deobfAt + 1].name == TaskDeobf)
    }

    constructor(depsDir: string)
      ensures Valid() && this.depsDir == depsDir
      ensures !useLocalCache && !madeDecompTasks && flagHistory == []
      ensures tasks == [] && edges == [] && binAts == [] && decompAts == [] && dependencies == map[]
    {
      this.depsDir := depsDir;
      useLocalCache := false;
      madeDecompTasks := false;
      tasks := [];
      edges := [];
      binAts := [];
      decompAts := [];
      dependencies := map[];
      flagHistory := [];
      deobfAt := 0;
    }

    /** Appending one event to the flag's history moves the flag by that event. */
    lemma FlagStep(e: FlagEvent)
      requires useLocalCache == FlagAfter(false, flagHistory)
      ensures FlagAfter(false, flagHistory + [e]) == NextFlag(useLocalCache, e)
    {
      FlagAfterAppend(false, flagHistory, [e]);
      assert [e][1..] == [];
    }

    /**
     * `useLocalCache(ext)`: true exactly when the flag already was, or the
     * extension lists ATs, or it asks for dependency ATs; a true flag stays
     * true whatever the extension says.
     */
    method UseLocalCache(ext: Extension) returns (r: bool)
      requires Valid()
      modifies this`useLocalCache, this`flagHistory
      ensures Valid()
      ensures r <==> old(useLocalCache) || |ext.accessTransformers| > 0 || ext.useDepAts
      ensures useLocalCache == r
      ensures flagHistory == old(flagHistory) + [Queried(|ext.accessTransformers| > 0, ext.useDepAts)]
    {
      FlagStep(Queried(|ext.accessTransformers| > 0, ext.useDepAts));
      flagHistory := flagHistory + [Queried(|ext.accessTransformers| > 0, ext.useDepAts)];
      if useLocalCache {
        return true;
      }
      useLocalCache := |ext.accessTransformers| > 0 || ext.useDepAts;
      r := useLocalCache;
    }

    /**
     * The closure `chooseDeobfOutput` returns, called: it asks `useLocalCache`
     * at that moment and formats the pattern the answer selects.
     */
    method ResolveDeobfOutput(ext: Extension, globalPattern: string, localPattern: string,
                              appendage: string, classifier: Option<string>)
      returns (r: Result<string, FormatError>)
      requires Valid()
      modifies this`useLocalCache, this`flagHistory
      ensures Valid()
      ensures useLocalCache <==> old(useLocalCache) || |ext.accessTransformers| > 0 || ext.useDepAts
      ensures r == ResolveFile(DeobfOutput(globalPattern, localPattern, appendage, classifier), useLocalCache)
      ensures flagHistory == old(flagHistory) + [Queried(|ext.accessTransformers| > 0, ext.useDepAts)]
    {
      var local := UseLocalCache(ext);
      r := DeobfOutputPath(local, globalPattern, localPattern, appendage, classifier);
    }

    /**
     * `makeDecompTasks`: sets the guard and registers the seven tasks of the
     * decompilation chain with their edges, in the order the source does. The
     * two deobfuscation tasks start without ATs.
     */
    method MakeDecompTasks(globalPattern: string, localPattern: string, inputJar: FileRef, inputTask: string)
      requires Valid()
      modifies this`madeDecompTasks, this`deobfAt, this`tasks, this`edges, this`binAts, this`decompAts
      ensures Valid() && madeDecompTasks
      ensures tasks == old(tasks) + DecompTasks(globalPattern, localPattern, inputJar)
      ensures edges == old(edges) + DecompEdges(inputTask)
      ensures binAts == [] && decompAts == []
    {
      madeDecompTasks := true;
      deobfAt := |tasks|;
      tasks := tasks + DecompTasks(globalPattern, localPattern, inputJar);
      edges := edges + DecompEdges(inputTask);
      binAts := [];
      decompAts := [];
    }

    /**
     * The `afterEvaluate` action `makeDecompTasks` registers: nothing happens
     * on a failed project; otherwise both compile tasks wait for the binary
     * deobfuscation, and `afterDecomp` receives `useLocalCache(ext)`.
     */
    method DecompAfterEvaluate(ext: Extension, projectFailed: bool) returns (afterDecompArg: Option<bool>)
      requires Valid() && madeDecompTasks
      modifies this`edges, this`useLocalCache, this`flagHistory
      ensures Valid()
      ensures afterDecompArg.None? <==> projectFailed
      ensures projectFailed ==> edges == old(edges) && useLocalCache == old(useLocalCache)
      ensures !projectFailed ==>
                && edges == old(edges) + [Edge("compileJava", TaskDeobfBin, DependsOn),
                                          Edge("compileApiJava", TaskDeobfBin, DependsOn)]
                && afterDecompArg == Some(useLocalCache)
                && (useLocalCache <==> old(useLocalCache) || |ext.accessTransformers| > 0 || ext.useDepAts)
    {
      if projectFailed {
        return None;
      }
      edges := edges + [Edge("compileJava", TaskDeobfBin, DependsOn), Edge("compileApiJava", TaskDeobfBin, DependsOn)];
      var local := UseLocalCache(ext);
      afterDecompArg := Some(local);
    }

    /**
     * `addAtsToDeobf`: both deobfuscation tasks get the extension's ATs, then
     * every AT file of the AT sources, in the same order; the flag is set when
     * dependency ATs are on or a file was found. ATs listed in the extension
     * do not set it here.
     */
    method AddAtsToDeobf(ext: Extension) returns (o: Outcome<PluginError>)
      requires Valid()
      modifies this`binAts, this`decompAts, this`useLocalCache, this`flagHistory
      ensures Valid()
      ensures o == (if !HasTask(TaskDeobfBin) then Fail(UnknownTask(TaskDeobfBin))
                    else if !HasTask(TaskDeobf) then Fail(UnknownTask(TaskDeobf))
                    else Pass)
      ensures o.Fail? ==> binAts == old(binAts) && useLocalCache == old(useLocalCache)
                          && flagHistory == old(flagHistory)
      ensures o.Pass? ==>
                && binAts == old(binAts) + ExtensionAtEntries(ext.accessTransformers)
                                         + FileAtEntries(AtFiles(ext.atSources))
                && (useLocalCache <==> old(useLocalCache) || ext.useDepAts || |AtFiles(ext.atSources)| > 0)
                && flagHistory == old(flagHistory) + [AtsCollected(ext.useDepAts || |AtFiles(ext.atSources)| > 0)]
    {
      if !HasTask(TaskDeobfBin) {
        return Fail(UnknownTask(TaskDeobfBin));
      }
      if !HasTask(TaskDeobf) {
        return Fail(UnknownTask(TaskDeobf));
      }
      var extAts := ExtensionAtEntries(ext.accessTransformers);
      binAts := binAts + extAts;
      decompAts := decompAts + extAts;

      var addedAts := ext.useDepAts;
      var files := AtFiles(ext.atSources);
      var i := 0;
      while i < |files|
        invariant 0 <= i <= |files|
        invariant binAts == old(binAts) + extAts + FileAtEntries(files[..i])
        invariant decompAts == binAts
        invariant addedAts <==> ext.useDepAts || i > 0
        invariant useLocalCache == old(useLocalCache) && flagHistory == old(flagHistory)
      {
        assert FileAtEntries(files[..i + 1]) == FileAtEntries(files[..i]) + [AtFile(files[i])];
        binAts := binAts + [AtFile(files[i])];
        decompAts := decompAts + [AtFile(files[i])];
        addedAts := true;
        i := i + 1;
      }
      assert files[..i] == files;

      FlagStep(AtsCollected(addedAts));
      flagHistory := flagHistory + [AtsCollected(addedAts)];
      useLocalCache := useLocalCache || addedAts;
      o := Pass;
    }

    /**
     * The guards at the head of `afterEvaluate`, then the AT collection it
     * ends with (the wiring between them is not modelled).
     */
    method AfterEvaluate(ext: Extension) returns (o: Outcome<PluginError>)
      requires Valid()
      modifies this`binAts, this`decompAts, this`useLocalCache, this`flagHistory
      ensures Valid()
      ensures o == (if !madeDecompTasks then Fail(DecompTasksNotMade)
                    else if IsNullOrEmpty(ext.runDir) then Fail(RunDirNotSet)
                    else Pass)
      ensures o.Fail? ==> binAts == old(binAts) && useLocalCache == old(useLocalCache)
                          && flagHistory == old(flagHistory)
      ensures o.Pass? ==>
                && binAts == old(binAts) + ExtensionAtEntries(ext.accessTransformers)
                                         + FileAtEntries(AtFiles(ext.atSources))
                && (useLocalCache <==> old(useLocalCache) || ext.useDepAts || |AtFiles(ext.atSources)| > 0)
    {
      if !madeDecompTasks {
        return Fail(DecompTasksNotMade);
      }
      if IsNullOrEmpty(ext.runDir) {
        return Fail(RunDirNotSet);
      }
      assert tasks[deobfAt].name == TaskDeobfBin && tasks[deobfAt + 1].name == TaskDeobf;
      o := AddAtsToDeobf(ext);
    }

    /**
     * A run of the dependency-AT extraction task. Its `onlyIf` skips it unless
     * `useDepAts` is set; otherwise its `doLast` hands every file the extraction
     * left in its output directory to both deobfuscation tasks, unfiltered.
     */
    method ExtractDepAtsDoLast(ext: Extension, extracted: seq<FileEntry>) returns (o: Outcome<PluginError>)
      requires Valid()
      modifies this`binAts, this`decompAts
      ensures Valid()
      ensures o == (if !ext.useDepAts then Pass
                    else if !HasTask(TaskDeobfBin) then Fail(UnknownTask(TaskDeobfBin))
                    else if !HasTask(TaskDeobf) then Fail(UnknownTask(TaskDeobf))
                    else Pass)
      ensures binAts == (if ext.useDepAts && o.Pass? then old(binAts) + FileAtEntries(extracted) else old(binAts))
    {
      if !ext.useDepAts {
        return Pass;
      }
      if !HasTask(TaskDeobfBin) {
        return Fail(UnknownTask(TaskDeobfBin));
      }
      if !HasTask(TaskDeobf) {
        return Fail(UnknownTask(TaskDeobf));
      }
      for i := 0 to |extracted|
        invariant binAts == old(binAts) + FileAtEntries(extracted[..i])
        invariant decompAts == binAts
      {
        assert FileAtEntries(extracted[..i + 1]) == FileAtEntries(extracted[..i]) + [AtFile(extracted[i])];
        binAts := binAts + [AtFile(extracted[i])];
        decompAts := decompAts + [AtFile(extracted[i])];
      }
      assert extracted[..|extracted|] == extracted;
      o := Pass;
    }

    /** The check loop of `remapDeps`: is every declared dependency a Maven/Ivy module? */
    method AllExternal(declared: seq<Dependency>) returns (ok: bool)
      ensures ok <==> AllExternalModules(declared)
    {
      for i := 0 to |declared|
        invariant forall k :: 0 <= k < i ==> declared[k].ExternalModule?
      {
        if !declared[i].ExternalModule? {
          return false;
        }
      }
      return true;
    }

    /**
     * One pass of the artifact loop of `remapDeps`: the deobfuscation task for
     * the artifact, its two edges and its `deobf.` coordinate.
     */
    method RegisterBinary(config: string, artifact: ResolvedArtifact, taskId: nat, resolvedConfig: string, dummy: string)
      modifies this`tasks, this`edges, this`dependencies
      ensures tasks == old(tasks) + [DeobfDepTask(depsDir, config, taskId, artifact)]
      ensures edges == old(edges) + TaskEdges([DeobfDepTask(depsDir, config, taskId, artifact)], dummy)
      ensures dependencies == AddAll(old(dependencies), resolvedConfig, [DeobfCoordinate(artifact.moduleId)])
    {
      var moduleId := artifact.moduleId;
      var group := DeobfGroup(moduleId.group);
      var deobf := Task(DeobfDepTaskName(config, taskId), SingleDeobfBin, Some(Literal(artifact.file)),
                        Some(MavenFile(depsDir, group, moduleId.name, moduleId.version, None)));
      tasks := tasks + [deobf];
      edges := edges + [Edge(deobf.name, TaskExtractMappings, DependsOn), Edge(dummy, deobf.name, DependsOn)];
      dependencies := dependencies[resolvedConfig := Added(dependencies, resolvedConfig)
                                                     + [Coordinate(group, moduleId.name, moduleId.version)]];
    }

    /**
     * The artifact loop of `remapDeps`: one binary deobfuscation task per
     * artifact, numbered from 0, each waiting for the mappings and awaited by
     * the dummy task, and the artifact's `deobf.` coordinate added to the
     * resolved configuration; `idMap` learns each artifact's module.
     */
    method RegisterBinaries(config: string, arts: seq<ResolvedArtifact>, resolvedConfig: string, dummy: string)
      returns (idMap: map<ComponentId, ModuleId>, taskId: nat)
      modifies this`tasks, this`edges, this`dependencies
      ensures taskId == |arts| && idMap == IdMapWithArtifacts(map[], arts)
      ensures tasks == old(tasks) + DeobfDepTasks(depsDir, config, arts, 0)
      ensures edges == old(edges) + TaskEdges(DeobfDepTasks(depsDir, config, arts, 0), dummy)
      ensures dependencies == AddAll(old(dependencies), resolvedConfig, Coordinates(arts))
    {
      taskId := 0;
      idMap := map[];
      ghost var binaries := DeobfDepTasks(depsDir, config, arts, 0);
      ghost var coords := Coordinates(arts);

      for i := 0 to |arts|
        invariant taskId == i
        invariant IdMapWithArtifacts(idMap, arts[i..]) == IdMapWithArtifacts(map[], arts)
        invariant tasks == old(tasks) + binaries[..i]
        invariant edges == old(edges) + TaskEdges(binaries[..i], dummy)
        invariant dependencies == AddAll(old(dependencies), resolvedConfig, coords[..i])
      {
        assert arts[i..][1..] == arts[i + 1..];
        idMap := idMap[arts[i].component := arts[i].moduleId];
        ghost var deobf := DeobfDepTask(depsDir, config, taskId, arts[i]);
        ghost var before := binaries[..i];
        PrefixStep(binaries, i);
        PrefixStep(coords, i);
        AddAllAppend(old(dependencies), resolvedConfig, coords[..i], [DeobfCoordinate(arts[i].moduleId)]);
        TaskEdgesConcat(before, [deobf], dummy);
        AppendAssociative(old(tasks), before, [deobf]);
        AppendAssociative(old(edges), TaskEdges(before, dummy), TaskEdges([deobf], dummy));
        RegisterBinary(config, arts[i], taskId, resolvedConfig, dummy);
        taskId := taskId + 1;
      }
      assert binaries[..|arts|] == binaries;
      assert coords[..|arts|] == coords;
    }

    /** The dependency-result loop of `remapDeps`: `idMap` learns the component each dependency starts from. */
    method AddDependencyComponents(idMap: map<ComponentId, ModuleId>, results: seq<DependencyResult>)
      returns (m: map<ComponentId, ModuleId>)
      ensures m == IdMapWithResults(idMap, results)
      ensures m.Keys == idMap.Keys + set d | d in results :: d.fromComponent
    {
      m := idMap;
      for j := 0 to |results|
        invariant IdMapWithResults(m, results[j..]) == IdMapWithResults(idMap, results)
      {
        assert results[j..][1..] == results[j + 1..];
        m := m[results[j].fromComponent := results[j].fromModule];
      }
      IdMapWithResultsKeys(idMap, results);
    }

    /**
     * One pass of the component loop of `remapDeps`: a remapping task for the
     * component's first sources jar, if it has one, with its two edges.
     */
    method RegisterSource(config: string, comp: ComponentArtifacts, idMap: map<ComponentId, ModuleId>,
                          taskId: nat, dummy: string)
      returns (next: nat)
      requires comp.component in idMap
      modifies this`tasks, this`edges
      ensures var made := if |comp.sources| > 0
                          then [SourcesTask(depsDir, config, taskId, idMap[comp.component], comp.sources[0])]
                          else [];
              && next == taskId + |made|
              && tasks == old(tasks) + made
              && edges == old(edges) + TaskEdges(made, dummy)
    {
      next := taskId;
      var moduleId := idMap[comp.component];
      var group := DeobfGroup(moduleId.group);
      if |comp.sources| > 0 {
        var remap := Task(SourcesTaskName(config, next), RemapSources, Some(Literal(comp.sources[0])),
                          Some(MavenFile(depsDir, group, moduleId.name, moduleId.version, Some("sources"))));
        next := next + 1;
        tasks := tasks + [remap];
        edges := edges + [Edge(remap.name, TaskExtractMappings, DependsOn), Edge(dummy, remap.name, DependsOn)];
      }
    }

    /**
     * The component loop of `remapDeps`: for each component with a sources
     * jar, one remapping task for its first jar, numbered on from `taskId`,
     * waiting for the mappings and awaited by the dummy task.
     */
    method RegisterSources(config: string, comps: seq<ComponentArtifacts>, idMap: map<ComponentId, ModuleId>,
                           taskId: nat, dummy: string)
      returns (next: nat)
      requires ComponentsKnown(comps, idMap)
      modifies this`tasks, this`edges
      ensures next == taskId + |WithSources(comps)|
      ensures tasks == old(tasks) + SourcesTasks(depsDir, config, comps, idMap, taskId)
      ensures edges == old(edges) + TaskEdges(SourcesTasks(depsDir, config, comps, idMap, taskId), dummy)
    {
      next := taskId;
      ghost var made: seq<Task> := [];
      ghost var plan := SourcesTasksFrom(depsDir, config, comps, idMap, 0, taskId);
      for j := 0 to |comps|
        invariant made + SourcesTasksFrom(depsDir, config, comps, idMap, j, next) == plan
        invariant next == taskId + |made|
        invariant tasks == old(tasks) + made
        invariant edges == old(edges) + TaskEdges(made, dummy)
      {
        assert comps[j] in comps;
        ghost var step := if |comps[j].sources| > 0
                          then [SourcesTask(depsDir, config, next, idMap[comps[j].component], comps[j].sources[0])]
                          else [];
        ghost var rest := SourcesTasksFrom(depsDir, config, comps, idMap, j + 1, next + |step|);
        assert SourcesTasksFrom(depsDir, config, comps, idMap, j, next) == step + rest;
        AppendAssociative(made, step, rest);
        AppendAssociative(old(tasks), made, step);
        TaskEdgesConcat(made, step, dummy);
        AppendAssociative(old(edges), TaskEdges(made, dummy), TaskEdges(step, dummy));
        next := RegisterSource(config, comps[j], idMap, next, dummy);
        made := made + step;
      }
      assert made + [] == made;
      SourcesTasksFromSuffix(depsDir, config, comps, idMap, 0, taskId);
      assert comps[0..] == comps;
    }

    /**
     * `remapDeps` for one configuration. It fails, before changing anything,
     * when a declared dependency is not a Maven/Ivy module. Otherwise it
     * registers a binary deobfuscation task per resolved artifact and adds the
     * artifact's `deobf.` coordinate, then a sources remapping task per
     * resolved component that has sources, all numbered by one counter from 0;
     * every task waits for the mappings and the dummy task waits for every
     * task. The sources query only answers for components in `idMap`.
     */
    method RemapDeps(config: string, declared: seq<Dependency>, arts: seq<ResolvedArtifact>,
                     results: seq<DependencyResult>, comps: seq<ComponentArtifacts>,
                     resolvedConfig: string, dummy: string)
      returns (o: Outcome<PluginError>)
      requires Valid()
      requires ComponentsKnown(comps, IdMap(arts, results))
      modifies this`tasks, this`edges, this`dependencies
      ensures Valid()
      ensures o.Pass? <==> AllExternalModules(declared)
      ensures o.Fail? ==> o.error == NotExternalModule
                          && tasks == old(tasks) && edges == old(edges) && dependencies == old(dependencies)
      ensures o.Pass? ==>
                var made := DeobfDepTasks(depsDir, config, arts, 0)
                            + SourcesTasks(depsDir, config, comps, IdMap(arts, results), |arts|);
                && tasks == old(tasks) + made
                && edges == old(edges) + TaskEdges(made, dummy)
                && dependencies == AddAll(old(dependencies), resolvedConfig, Coordinates(arts))
    {
      var ok := AllExternal(declared);
      if !ok {
        return Fail(NotExternalModule);
      }
      var idMap, taskId := RegisterBinaries(config, arts, resolvedConfig, dummy);
      idMap := AddDependencyComponents(idMap, results);
      var _ := RegisterSources(config, comps, idMap, taskId, dummy);

      ghost var binaries := DeobfDepTasks(depsDir, config, arts, 0);
      ghost var sources := SourcesTasks(depsDir, config, comps, IdMap(arts, results), |arts|);
      TaskEdgesConcat(binaries, sources, dummy);
      AppendAssociative(old(tasks), binaries, sources);
      AppendAssociative(old(edges), TaskEdges(binaries, dummy), TaskEdges(sources, dummy));
      o := Pass;
    }
  }
}
