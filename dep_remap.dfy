/**
 * What `remapDeps` plans for one deobfuscation configuration: a binary
 * deobfuscation task per resolved artifact, published under the synthetic
 * `deobf.<group>` coordinate in the deobfuscated-dependency repository, and at
 * most one sources-remapping task per resolved component. Gradle's
 * resolution results are given as lists.
 */
module DepRemap {
  import opened Wrappers
  import opened Text
  import opened ArtifactPaths
  import opened Tasks

  type ComponentId = string

  /** `ModuleVersionIdentifier`. */
  datatype ModuleId = ModuleId(group: string, name: string, version: string)

  /** A declared dependency: a Maven/Ivy module, or anything else (files, projects). */
  datatype Dependency = ExternalModule(id: ModuleId) | OtherDependency(description: string)

  /** A `ResolvedArtifact`: its component, its module and its jar. */
  datatype ResolvedArtifact = ResolvedArtifact(component: ComponentId, moduleId: ModuleId, file: string)

  /** A `DependencyResult`, as far as `remapDeps` reads it: the component it starts from. */
  datatype DependencyResult = DependencyResult(fromComponent: ComponentId, fromModule: ModuleId)

  /** A resolved component of the artifact-resolution query, with its sources jars in order. */
  datatype ComponentArtifacts = ComponentArtifacts(component: ComponentId, sources: seq<string>)

  /** The check loop: every declared dependency is an external module. */
  predicate AllExternalModules(declared: seq<Dependency>) {
    forall d :: d in declared ==> d.ExternalModule?
  }

  function DeobfDepTaskName(config: string, id: nat): string {
    config + "DeobfDepTask" + NatToString(id)
  }

  function SourcesTaskName(config: string, id: nat): string {
    config + "RemapDepSourcesTask" + NatToString(id)
  }

  // `depsDir` below is the expanded DIR_DEOBF_DEPS of UserConstants, the directory
  // that setupDevTimeDeobf registers as the `deobfDeps` Maven repository.

  /** Where the deobfuscated jar of a module goes. */
  function DeobfDepOutput(depsDir: string, m: ModuleId): FileRef {
    MavenFile(depsDir, DeobfGroup(m.group), m.name, m.version, None)
  }

  /** Where the remapped sources jar of a module goes. */
  function SourcesOutput(depsDir: string, m: ModuleId): FileRef {
    MavenFile(depsDir, DeobfGroup(m.group), m.name, m.version, Some("sources"))
  }

  /** The synthetic coordinate added to the resolved configuration for a module. */
  function DeobfCoordinate(m: ModuleId): string {
    Coordinate(DeobfGroup(m.group), m.name, m.version)
  }

  function DeobfDepTask(depsDir: string, config: string, id: nat, a: ResolvedArtifact): Task {
    Task(DeobfDepTaskName(config, id), SingleDeobfBin, Some(Literal(a.file)),
         Some(DeobfDepOutput(depsDir, a.moduleId)))
  }

  function SourcesTask(depsDir: string, config: string, id: nat, m: ModuleId, sourcesJar: string): Task {
    Task(SourcesTaskName(config, id), RemapSources, Some(Literal(sourcesJar)),
         Some(SourcesOutput(depsDir, m)))
  }

  /** The binary deobfuscation tasks, numbered from `id`, one per artifact in order. */
  function DeobfDepTasks(depsDir: string, config: string, arts: seq<ResolvedArtifact>, id: nat): (r: seq<Task>)
    ensures |r| == |arts|
    ensures forall i :: 0 <= i < |arts| ==> r[i] == DeobfDepTask(depsDir, config, id + i, arts[i])
    decreases |arts|
  {
    if arts == [] then []
    else [DeobfDepTask(depsDir, config, id, arts[0])] + DeobfDepTasks(depsDir, config, arts[1..], id + 1)
  }

  /** Each generated task waits for the mappings, and the dummy task waits for it. */
  function TaskEdges(ts: seq<Task>, dummy: string): (r: seq<Edge>)
    ensures |r| == 2 * |ts|
    decreases |ts|
  {
    if ts == [] then []
    else [Edge(ts[0].name, TaskExtractMappings, DependsOn), Edge(dummy, ts[0].name, DependsOn)]
         + TaskEdges(ts[1..], dummy)
  }

  /** The edges of two runs of tasks, one after the other. */
  lemma {:induction false} TaskEdgesConcat(a: seq<Task>, b: seq<Task>, dummy: string)
    ensures TaskEdges(a + b, dummy) == TaskEdges(a, dummy) + TaskEdges(b, dummy)
    decreases |a|
  {
    if a == [] {
      assert a + b == b;
    } else {
      assert (a + b)[0] == a[0];
      assert (a + b)[1..] == a[1..] + b;
      TaskEdgesConcat(a[1..], b, dummy);
    }
  }

  /** The dummy dependency task depends on every task generated for the configuration. */
  lemma {:induction false} DummyDependsOnAll(ts: seq<Task>, dummy: string)
    ensures forall t :: t in ts ==> Edge(dummy, t.name, DependsOn) in TaskEdges(ts, dummy)
    ensures forall t :: t in ts ==> Edge(t.name, TaskExtractMappings, DependsOn) in TaskEdges(ts, dummy)
    decreases |ts|
  {
    if ts != [] {
      DummyDependsOnAll(ts[1..], dummy);
      forall t | t in ts
        ensures Edge(dummy, t.name, DependsOn) in TaskEdges(ts, dummy)
        ensures Edge(t.name, TaskExtractMappings, DependsOn) in TaskEdges(ts, dummy)
      {
        if t != ts[0] {
          assert t in ts[1..];
        }
      }
    }
  }

  /** The coordinates added to the resolved configuration, one per artifact in order. */
  function Coordinates(arts: seq<ResolvedArtifact>): (r: seq<string>)
    ensures |r| == |arts|
    ensures forall i :: 0 <= i < |arts| ==> r[i] == DeobfCoordinate(arts[i].moduleId)
    decreases |arts|
  {
    if arts == [] then [] else [DeobfCoordinate(arts[0].moduleId)] + Coordinates(arts[1..])
  }

  /** `idMap` after the binary loop's `put`s, starting from `m`. */
  function IdMapWithArtifacts(m: map<ComponentId, ModuleId>, arts: seq<ResolvedArtifact>): map<ComponentId, ModuleId>
    decreases |arts|
  {
    if arts == [] then m
    else IdMapWithArtifacts(m[arts[0].component := arts[0].moduleId], arts[1..])
  }

  /** `idMap` after the dependency-result loop's `put`s, starting from `m`. */
  function IdMapWithResults(m: map<ComponentId, ModuleId>, results: seq<DependencyResult>): map<ComponentId, ModuleId>
    decreases |results|
  {
    if results == [] then m
    else IdMapWithResults(m[results[0].fromComponent := results[0].fromModule], results[1..])
  }

  /** The `idMap` the sources query is made for. */
  function IdMap(arts: seq<ResolvedArtifact>, results: seq<DependencyResult>): map<ComponentId, ModuleId> {
    IdMapWithResults(IdMapWithArtifacts(map[], arts), results)
  }

  lemma {:induction false} IdMapWithArtifactsKeys(m: map<ComponentId, ModuleId>, arts: seq<ResolvedArtifact>)
    ensures IdMapWithArtifacts(m, arts).Keys == m.Keys + set a | a in arts :: a.component
    decreases |arts|
  {
    if arts != [] {
      IdMapWithArtifactsKeys(m[arts[0].component := arts[0].moduleId], arts[1..]);
      assert forall a :: a in arts <==> a == arts[0] || a in arts[1..];
    }
  }

  lemma {:induction false} IdMapWithResultsKeys(m: map<ComponentId, ModuleId>, results: seq<DependencyResult>)
    ensures IdMapWithResults(m, results).Keys == m.Keys + set d | d in results :: d.fromComponent
    decreases |results|
  {
    if results != [] {
      IdMapWithResultsKeys(m[results[0].fromComponent := results[0].fromModule], results[1..]);
      assert forall d :: d in results <==> d == results[0] || d in results[1..];
    }
  }

  /** The sources query covers exactly the artifacts' components and the components dependencies start from. */
  lemma IdMapKeys(arts: seq<ResolvedArtifact>, results: seq<DependencyResult>)
    ensures IdMap(arts, results).Keys
            == (set a | a in arts :: a.component) + (set d | d in results :: d.fromComponent)
  {
    IdMapWithArtifactsKeys(map[], arts);
    IdMapWithResultsKeys(IdMapWithArtifacts(map[], arts), results);
  }

  /** The components that have at least one sources jar, in order. */
  function WithSources(comps: seq<ComponentArtifacts>): (r: seq<ComponentArtifacts>)
    ensures |r| <= |comps|
    decreases |comps|
  {
    if comps == [] then []
    else if |comps[0].sources| > 0 then [comps[0]] + WithSources(comps[1..])
    else WithSources(comps[1..])
  }

  /** Only components of the query result that have a sources jar are kept. */
  lemma {:induction false} WithSourcesMembers(comps: seq<ComponentArtifacts>)
    ensures forall c :: c in WithSources(comps) ==> c in comps && |c.sources| > 0
    ensures forall c :: c in comps && |c.sources| > 0 ==> c in WithSources(comps)
    decreases |comps|
  {
    if comps != [] {
      WithSourcesMembers(comps[1..]);
      assert forall c :: c in comps <==> c == comps[0] || c in comps[1..];
    }
  }

  predicate ComponentsKnown(comps: seq<ComponentArtifacts>, idMap: map<ComponentId, ModuleId>) {
    forall c :: c in comps ==> c.component in idMap
  }

  /**
   * The sources remapping tasks, numbered from `id`: one per component that has
   * a sources jar, in order, each remapping only that component's first jar.
   */
  function SourcesTasks(depsDir: string, config: string, comps: seq<ComponentArtifacts>, idMap: map<ComponentId, ModuleId>,
                        id: nat): (r: seq<Task>)
    requires ComponentsKnown(comps, idMap)
    ensures |r| == |WithSources(comps)| <= |comps|
    decreases |comps|
  {
    if comps == [] then []
    else if |comps[0].sources| > 0 then
      [SourcesTask(depsDir, config, id, idMap[comps[0].component], comps[0].sources[0])]
      + SourcesTasks(depsDir, config, comps[1..], idMap, id + 1)
    else SourcesTasks(depsDir, config, comps[1..], idMap, id)
  }

  /** The sources tasks from component `j` on: those of component `j`, then those of the rest. */
  lemma SourcesTasksStep(depsDir: string, config: string, comps: seq<ComponentArtifacts>,
                         idMap: map<ComponentId, ModuleId>, j: nat, id: nat)
    requires ComponentsKnown(comps, idMap) && j < |comps|
    ensures ComponentsKnown(comps[j..], idMap) && ComponentsKnown(comps[j + 1..], idMap)
    ensures comps[j].component in idMap
    ensures SourcesTasks(depsDir, config, comps[j..], idMap, id)
            == if |comps[j].sources| > 0
               then [SourcesTask(depsDir, config, id, idMap[comps[j].component], comps[j].sources[0])]
                    + SourcesTasks(depsDir, config, comps[j + 1..], idMap, id + 1)
               else SourcesTasks(depsDir, config, comps[j + 1..], idMap, id)
  {
    assert comps[j] in comps;
    assert comps[j..][0] == comps[j];
    assert comps[j..][1..] == comps[j + 1..];
    forall c | c in comps[j..]
      ensures c.component in idMap
    {
      assert c in comps;
    }
  }

  /** The sources tasks of `comps[j..]`, numbered from `id`, by position in `comps`. */
  function SourcesTasksFrom(depsDir: string, config: string, comps: seq<ComponentArtifacts>,
                            idMap: map<ComponentId, ModuleId>, j: nat, id: nat): seq<Task>
    requires ComponentsKnown(comps, idMap) && j <= |comps|
    decreases |comps| - j
  {
    if j == |comps| then []
    else
      assert comps[j] in comps;
      if |comps[j].sources| > 0 then
        [SourcesTask(depsDir, config, id, idMap[comps[j].component], comps[j].sources[0])]
        + SourcesTasksFrom(depsDir, config, comps, idMap, j + 1, id + 1)
      else SourcesTasksFrom(depsDir, config, comps, idMap, j + 1, id)
  }

  /** Counting from position `j` is the same as taking the suffix from `j`. */
  lemma {:induction false} SourcesTasksFromSuffix(depsDir: string, config: string, comps: seq<ComponentArtifacts>,
                                                  idMap: map<ComponentId, ModuleId>, j: nat, id: nat)
    requires ComponentsKnown(comps, idMap) && j <= |comps|
    ensures ComponentsKnown(comps[j..], idMap)
    ensures SourcesTasksFrom(depsDir, config, comps, idMap, j, id) == SourcesTasks(depsDir, config, comps[j..], idMap, id)
    decreases |comps| - j
  {
    if j == |comps| {
      assert comps[j..] == [];
    } else {
      SourcesTasksStep(depsDir, config, comps, idMap, j, id);
      if |comps[j].sources| > 0 {
        SourcesTasksFromSuffix(depsDir, config, comps, idMap, j + 1, id + 1);
      } else {
        SourcesTasksFromSuffix(depsDir, config, comps, idMap, j + 1, id);
      }
    }
  }

  /** Task `k` of the sources loop remaps the first jar of the `k`-th component that has sources. */
  lemma {:induction false} SourcesTaskAt(depsDir: string, config: string, comps: seq<ComponentArtifacts>,
                                         idMap: map<ComponentId, ModuleId>, id: nat, k: nat)
    requires ComponentsKnown(comps, idMap)
    requires k < |WithSources(comps)|
    ensures WithSources(comps)[k] in comps && |WithSources(comps)[k].sources| > 0
    ensures SourcesTasks(depsDir, config, comps, idMap, id)[k]
            == SourcesTask(depsDir, config, id + k, idMap[WithSources(comps)[k].component],
                           WithSources(comps)[k].sources[0])
    decreases |comps|
  {
    var w := WithSources(comps);
    assert comps[0] in comps;
    assert ComponentsKnown(comps[1..], idMap) by {
      forall c | c in comps[1..] ensures c.component in idMap {
        assert c in comps;
      }
    }
    if |comps[0].sources| > 0 {
      if k > 0 {
        SourcesTaskAt(depsDir, config, comps[1..], idMap, id + 1, k - 1);
        assert w[k] == WithSources(comps[1..])[k - 1];
        assert w[k] in comps[1..];
      }
    } else {
      SourcesTaskAt(depsDir, config, comps[1..], idMap, id, k);
      assert w[k] in comps[1..];
    }
  }

  lemma GeneratedNameInjective(config: string, word: string, i: nat, j: nat)
    requires config + word + NatToString(i) == config + word + NatToString(j)
    ensures i == j
  {
    var n := |config| + |word|;
    assert (config + word + NatToString(i))[n..] == NatToString(i);
    assert (config + word + NatToString(j))[n..] == NatToString(j);
    NatToStringInjective(i, j);
  }

  /** Two generated names are equal only when they come from the same loop and the same counter value. */
  lemma GeneratedNamesDiffer(config: string, i: nat, j: nat)
    ensures DeobfDepTaskName(config, i) != SourcesTaskName(config, j)
    ensures i != j ==> DeobfDepTaskName(config, i) != DeobfDepTaskName(config, j)
    ensures i != j ==> SourcesTaskName(config, i) != SourcesTaskName(config, j)
  {
    assert DeobfDepTaskName(config, i)[|config|] == 'D';
    assert SourcesTaskName(config, j)[|config|] == 'R';
    if DeobfDepTaskName(config, i) == DeobfDepTaskName(config, j) {
      GeneratedNameInjective(config, "DeobfDepTask", i, j);
    }
    if SourcesTaskName(config, i) == SourcesTaskName(config, j) {
      GeneratedNameInjective(config, "RemapDepSourcesTask", i, j);
    }
  }

  /** The name of the task at position `i` of everything one configuration generates. */
  lemma GeneratedNameAt(depsDir: string, config: string, arts: seq<ResolvedArtifact>, comps: seq<ComponentArtifacts>,
                        idMap: map<ComponentId, ModuleId>, i: nat)
    requires ComponentsKnown(comps, idMap)
    requires i < |arts| + |WithSources(comps)|
    ensures var ts := DeobfDepTasks(depsDir, config, arts, 0) + SourcesTasks(depsDir, config, comps, idMap, |arts|);
            ts[i].name == if i < |arts| then DeobfDepTaskName(config, i) else SourcesTaskName(config, i)
  {
    if |arts| <= i {
      SourcesTaskAt(depsDir, config, comps, idMap, |arts|, i - |arts|);
    }
  }

  /**
   * The one counter shared by both loops gives every task generated for a
   * configuration its own name.
   */
  lemma GeneratedNamesDistinct(depsDir: string, config: string, arts: seq<ResolvedArtifact>, comps: seq<ComponentArtifacts>,
                               idMap: map<ComponentId, ModuleId>)
    requires ComponentsKnown(comps, idMap)
    ensures var ts := DeobfDepTasks(depsDir, config, arts, 0) + SourcesTasks(depsDir, config, comps, idMap, |arts|);
            forall i, j :: 0 <= i < j < |ts| ==> ts[i].name != ts[j].name
  {
    var ts := DeobfDepTasks(depsDir, config, arts, 0) + SourcesTasks(depsDir, config, comps, idMap, |arts|);
    forall i, j | 0 <= i < j < |ts|
      ensures ts[i].name != ts[j].name
    {
      GeneratedNameAt(depsDir, config, arts, comps, idMap, i);
      GeneratedNameAt(depsDir, config, arts, comps, idMap, j);
      GeneratedNamesDiffer(config, i, j);
      GeneratedNamesDiffer(config, j, i);
    }
  }

  /**
   * Each coordinate added to the resolved configuration names, through the
   * Maven layout of the deobfuscated-dependency repository, exactly the file
   * the matching deobfuscation task writes.
   */
  lemma CoordinatesMatchOutputs(depsDir: string, config: string, arts: seq<ResolvedArtifact>)
    requires forall a :: a in arts ==> ':' !in a.moduleId.group && ':' !in a.moduleId.name && ':' !in a.moduleId.version
    ensures forall i :: 0 <= i < |arts| ==>
              var parts := SplitOn(Coordinates(arts)[i], ':');
              |parts| == 3 && parts[0] == DeobfGroup(arts[i].moduleId.group)
              && DeobfDepTasks(depsDir, config, arts, 0)[i].outJar
                 == Some(MavenFile(depsDir, parts[0], parts[1], parts[2], None))
  {
    forall i | 0 <= i < |arts|
      ensures var parts := SplitOn(Coordinates(arts)[i], ':');
              |parts| == 3 && parts[0] == DeobfGroup(arts[i].moduleId.group)
              && DeobfDepTasks(depsDir, config, arts, 0)[i].outJar
                 == Some(MavenFile(depsDir, parts[0], parts[1], parts[2], None))
    {
      var m := arts[i].moduleId;
      assert arts[i] in arts;
      assert ':' !in DeobfGroup(m.group);
      CoordinateRoundTrip(DeobfGroup(m.group), m.name, m.version);
    }
  }

  /**
   * A deobfuscated dependency lands at `deobf/<group parts>/name/version/name-version.jar`
   * under the deobfuscated-dependency directory.
   */
  lemma DeobfDepOutputLayout(depsDir: string, m: ModuleId, useLocal: bool)
    requires '/' !in m.group && '/' !in m.name && '/' !in m.version
    ensures ResolveFile(DeobfDepOutput(depsDir, m), useLocal).Ok?
    ensures SplitOn(ResolveFile(DeobfDepOutput(depsDir, m), useLocal).value, '/')
            == SplitOn(depsDir, '/') + ["deobf"] + SplitOn(m.group, '.')
               + [m.name, m.version, m.name + "-" + m.version + ".jar"]
  {
    assert '/' !in DeobfGroup(m.group);
    MavenPathLayout(depsDir, DeobfGroup(m.group), m.name, m.version, None);
    DeobfGroupSegments(m.group);
    assert MavenFileName(m.name, m.version, None) == m.name + "-" + m.version + ".jar";
    AppendAssociative(SplitOn(depsDir, '/'), ["deobf"], SplitOn(m.group, '.'));
  }
}
