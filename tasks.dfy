/**
 * Task records and dependency edges, standing in for the Gradle task objects
 * the plugin creates, and the fixed decompilation chain that
 * `makeDecompTasks` wires: deobfuscate (markers on), decompile, fix the
 * sources, remap them to developer names, recompile; beside it a binary
 * deobfuscation with markers off and the GradleStart generator.
 */
module Tasks {
  import opened Wrappers
  import opened ArtifactPaths

  // Task names defined in UserConstants and Constants. Those files are not part of
  // this model: the values below stand in for them, and the proofs rely only on
  // the seven decompilation task names being pairwise distinct.
  const TaskDeobfBin: string := "deobfMcMCP"
  const TaskDeobf: string := "deobfMcSRG"
  const TaskDecompile: string := "decompileMc"
  const TaskPostDecomp: string := "fixMcSources"
  const TaskRemap: string := "remapMcSources"
  const TaskRecompile: string := "recompileMc"
  const TaskMakeStart: string := "makeStart"
  const TaskSetupCi: string := "setupCiWorkspace"
  const TaskSetupDev: string := "setupDevWorkspace"
  const TaskGenerateSrgs: string := "genSrgs"
  const TaskExtractDepAts: string := "extractDependencyATs"
  const TaskDdCompile: string := "deobfCompileDummyTask"
  const TaskDdProvided: string := "deobfProvidedDummyTask"
  const TaskDlVersionJson: string := "getVersionJson"
  const TaskDlAssetIndex: string := "getAssetIndex"
  const TaskDlAssets: string := "getAssets"
  const TaskExtractNatives: string := "extractNatives"
  const TaskExtractMappings: string := "extractMcpMappings"

  /** A file a task reads or writes, as it is handed to the task. */
  datatype FileRef =
    /** a file known when the task is configured */
    | Literal(path: string)
    /** a `chooseDeobfOutput` closure, resolved only when the task asks for its file */
    | DeobfOutput(globalPattern: string, localPattern: string, appendage: string, classifier: Option<string>)
    /** the delayed file `getFile` returns: a jar in a Maven-style repository */
    | MavenFile(baseDir: string, group: string, name: string, version: string, classifier: Option<string>)

  /** The path a file reference stands for, given the cache flag at resolution time. */
  function ResolveFile(ref: FileRef, useLocal: bool): (r: Result<string, FormatError>)
    ensures r.Err? ==> ref.DeobfOutput?
    ensures ref.DeobfOutput? ==> (r.Ok? <==> Format(if useLocal then ref.localPattern else ref.globalPattern, ref.appendage).Ok?)
  {
    match ref
    case Literal(p) => Ok(p)
    case DeobfOutput(g, l, a, c) => DeobfOutputPath(useLocal, g, l, a, c)
    case MavenFile(b, g, n, v, c) => Ok(MavenPath(b, g, n, v, c))
  }

  /** Which mapping table a `DeobfuscateJar` applies. */
  datatype Mapping = NotchToMcp | NotchToSrg

  datatype TaskKind =
    | DeobfuscateJar(mapping: Mapping, applyMarkers: bool)
    | ApplyFernFlower
    | PostDecompile
    | RemapSources
    | RecompileMc
    | CreateStart
    | SingleDeobfBin

  /** A registered task: its name, its type and settings, its input and output jar. */
  datatype Task = Task(name: string, kind: TaskKind, inJar: Option<FileRef>, outJar: Option<FileRef>)

  datatype EdgeKind = DependsOn | MustRunAfter

  /** `from.dependsOn(to)` or `from.mustRunAfter(to)`. */
  datatype Edge = Edge(from: string, to: string, kind: EdgeKind)

  /** The dependencies both deobfuscation tasks of the chain declare. */
  function DeobfPrerequisites(from: string, inputTask: string): seq<Edge> {
    [Edge(from, inputTask, DependsOn), Edge(from, TaskGenerateSrgs, DependsOn),
     Edge(from, TaskExtractDepAts, DependsOn), Edge(from, TaskDdCompile, DependsOn),
     Edge(from, TaskDdProvided, DependsOn)]
  }

  /** The output of one stage of the chain, named by appendage and classifier. */
  function StageOutput(globalPattern: string, localPattern: string, appendage: string, classifier: string): FileRef {
    DeobfOutput(globalPattern, localPattern, appendage, Some(classifier))
  }

  /** The (appendage, classifier) of the six jars of the chain, in registration order. */
  const StageOutputs: seq<(string, string)> :=
    [("Bin", ""), ("", "srgBin"), ("", "decomp"), ("", "decompFixed"), ("Src", "sources"), ("Src", "")]

  /**
   * The tasks `makeDecompTasks` registers, in registration order. Each stage of
   * the chain reads the very file reference the stage before it writes; the
   * binary deobfuscation renames outright, the one that feeds the decompiler
   * only adds markers.
   */
  function DecompTasks(globalPattern: string, localPattern: string, inputJar: FileRef): (r: seq<Task>)
    ensures |r| == 7
    ensures r[0].name == TaskDeobfBin && r[0].kind == DeobfuscateJar(NotchToMcp, false)
    ensures r[1].name == TaskDeobf && r[1].kind == DeobfuscateJar(NotchToSrg, true)
    ensures r[2].name == TaskDecompile && r[2].kind == ApplyFernFlower
    ensures r[3].name == TaskPostDecomp && r[3].kind == PostDecompile
    ensures r[4].name == TaskRemap && r[4].kind == RemapSources
    ensures r[5].name == TaskRecompile && r[5].kind == RecompileMc
    ensures r[6].name == TaskMakeStart && r[6].kind == CreateStart
    ensures r[6].inJar == None && r[6].outJar == None
    ensures r[0].inJar == r[1].inJar == Some(inputJar)
    ensures forall k :: 2 <= k <= 5 ==> r[k].inJar == r[k - 1].outJar && r[k].inJar.Some?
    ensures forall k :: 0 <= k < 6 ==>
              r[k].outJar == Some(StageOutput(globalPattern, localPattern, StageOutputs[k].0, StageOutputs[k].1))
  {
    var deobfDecompJar := StageOutput(globalPattern, localPattern, "", "srgBin");
    var decompJar := StageOutput(globalPattern, localPattern, "", "decomp");
    var postDecompJar := StageOutput(globalPattern, localPattern, "", "decompFixed");
    var remapped := StageOutput(globalPattern, localPattern, "Src", "sources");
    var recompiledJar := StageOutput(globalPattern, localPattern, "Src", "");
    [ Task(TaskDeobfBin, DeobfuscateJar(NotchToMcp, false), Some(inputJar),
           Some(StageOutput(globalPattern, localPattern, "Bin", ""))),
      Task(TaskDeobf, DeobfuscateJar(NotchToSrg, true), Some(inputJar), Some(deobfDecompJar)),
      Task(TaskDecompile, ApplyFernFlower, Some(deobfDecompJar), Some(decompJar)),
      Task(TaskPostDecomp, PostDecompile, Some(decompJar), Some(postDecompJar)),
      Task(TaskRemap, RemapSources, Some(postDecompJar), Some(remapped)),
      Task(TaskRecompile, RecompileMc, Some(remapped), Some(recompiledJar)),
      Task(TaskMakeStart, CreateStart, None, None) ]
  }

  /** The dependency edges of the chain proper, decompilation to recompilation. */
  function ChainEdges(): seq<Edge> {
    [ Edge(TaskDecompile, TaskDeobf, DependsOn),
      Edge(TaskPostDecomp, TaskDecompile, DependsOn),
      Edge(TaskRemap, TaskPostDecomp, DependsOn),
      Edge(TaskRecompile, TaskRemap, DependsOn),
      Edge(TaskRecompile, TaskDlVersionJson, DependsOn) ]
  }

  /** GradleStart's prerequisites and its ordering after both jars it puts on the classpath. */
  function MakeStartEdges(): seq<Edge> {
    [ Edge(TaskMakeStart, TaskDlAssetIndex, DependsOn),
      Edge(TaskMakeStart, TaskDlAssets, DependsOn),
      Edge(TaskMakeStart, TaskExtractNatives, DependsOn),
      Edge(TaskMakeStart, TaskDeobfBin, MustRunAfter),
      Edge(TaskMakeStart, TaskRecompile, MustRunAfter) ]
  }

  /** The workspace-setup tasks wait for the binary jar, and the dev setup for GradleStart. */
  function SetupEdges(): seq<Edge> {
    [ Edge(TaskSetupCi, TaskDeobfBin, DependsOn),
      Edge(TaskSetupDev, TaskDeobfBin, DependsOn),
      Edge(TaskSetupDev, TaskMakeStart, DependsOn) ]
  }

  /** The edges `makeDecompTasks` adds, in the order it adds them. */
  function DecompEdges(inputTask: string): seq<Edge> {
    DeobfPrerequisites(TaskDeobfBin, inputTask) + DeobfPrerequisites(TaskDeobf, inputTask)
    + ChainEdges() + MakeStartEdges() + SetupEdges()
  }

  /**
   * Every stage after the decompilation deobfuscation depends on the stage
   * before it and reads that stage's output, so no stage can start before its
   * input exists; both deobfuscations wait for the input task.
   */
  lemma DecompChainLinked(globalPattern: string, localPattern: string, inputJar: FileRef, inputTask: string)
    ensures var ts := DecompTasks(globalPattern, localPattern, inputJar);
            forall k :: 2 <= k <= 5 ==>
              Edge(ts[k].name, ts[k - 1].name, DependsOn) in DecompEdges(inputTask)
              && ts[k].inJar == ts[k - 1].outJar
    ensures Edge(TaskDeobfBin, inputTask, DependsOn) in DecompEdges(inputTask)
    ensures Edge(TaskDeobf, inputTask, DependsOn) in DecompEdges(inputTask)
  {
    var ts := DecompTasks(globalPattern, localPattern, inputJar);
    var pre := DeobfPrerequisites(TaskDeobfBin, inputTask) + DeobfPrerequisites(TaskDeobf, inputTask);
    var chain := ChainEdges();
    var es := DecompEdges(inputTask);
    assert es == pre + chain + (MakeStartEdges() + SetupEdges());
    forall k | 2 <= k <= 5
      ensures Edge(ts[k].name, ts[k - 1].name, DependsOn) in es
    {
      assert chain[k - 2] == Edge(ts[k].name, ts[k - 1].name, DependsOn);
      assert chain[k - 2] in chain;
    }
    assert DeobfPrerequisites(TaskDeobfBin, inputTask)[0] == Edge(TaskDeobfBin, inputTask, DependsOn);
    assert DeobfPrerequisites(TaskDeobf, inputTask)[0] == Edge(TaskDeobf, inputTask, DependsOn);
  }

  /** The file name of a stage output once the pattern `pre%spost` is formatted. */
  function StageFileName(pre: string, post: string, stage: (string, string)): string {
    pre + stage.0 + post + ClassifierSuffix(Some(stage.1)) + ".jar"
  }

  lemma StageFileNameLengths(pre: string, post: string)
    ensures var n := |pre| + |post|;
            && |StageFileName(pre, post, StageOutputs[0])| == n + 7
            && |StageFileName(pre, post, StageOutputs[1])| == n + 11
            && |StageFileName(pre, post, StageOutputs[2])| == n + 11
            && |StageFileName(pre, post, StageOutputs[3])| == n + 16
            && |StageFileName(pre, post, StageOutputs[4])| == n + 15
            && |StageFileName(pre, post, StageOutputs[5])| == n + 7
  {
  }

  /** A stage without classifier shows its appendage right after the prefix. */
  lemma AppendageMark(pre: string, post: string, appendage: string)
    requires |appendage| > 0
    ensures var name := StageFileName(pre, post, (appendage, ""));
            |name| > |pre| && name[|pre|] == appendage[0]
  {
    assert ClassifierSuffix(Some("")) == "";
    var name := StageFileName(pre, post, (appendage, ""));
    assert name == (pre + appendage) + (post + ".jar");
    assert (pre + appendage)[|pre|] == appendage[0];
  }

  /** A stage without appendage shows its classifier right after the prefix, the suffix and a dash. */
  lemma ClassifierMark(pre: string, post: string, classifier: string)
    requires |classifier| > 0
    ensures var name := StageFileName(pre, post, ("", classifier));
            |name| > |pre + post| + 1 && name[|pre + post| + 1] == classifier[0]
  {
    var name := StageFileName(pre, post, ("", classifier));
    assert ClassifierSuffix(Some(classifier)) == "-" + classifier;
    assert name == (pre + post + "-" + classifier) + ".jar";
    assert (pre + post + "-" + classifier)[|pre + post| + 1] == classifier[0];
  }

  /** The six stage names differ whatever surrounds the placeholder. */
  lemma StageFileNamesDistinct(pre: string, post: string)
    ensures forall i, j :: 0 <= i < j < 6 ==>
              StageFileName(pre, post, StageOutputs[i]) != StageFileName(pre, post, StageOutputs[j])
  {
    StageFileNameLengths(pre, post);
    AppendageMark(pre, post, "Bin");
    AppendageMark(pre, post, "Src");
    ClassifierMark(pre, post, "srgBin");
    ClassifierMark(pre, post, "decomp");
  }

  /**
   * Whatever the cache flag, once the chosen pattern has a single `%s` the six
   * jars of the chain resolve to six different files: no stage overwrites
   * another stage's output.
   */
  lemma DecompOutputsDistinct(globalPattern: string, localPattern: string, inputJar: FileRef,
                              useLocal: bool, pre: string, post: string)
    requires (if useLocal then localPattern else globalPattern) == pre + "%s" + post
    requires '%' !in pre && '%' !in post
    ensures var ts := DecompTasks(globalPattern, localPattern, inputJar);
            forall i, j :: 0 <= i < j < 6 ==>
              ResolveFile(ts[i].outJar.value, useLocal) != ResolveFile(ts[j].outJar.value, useLocal)
  {
    var ts := DecompTasks(globalPattern, localPattern, inputJar);
    forall k | 0 <= k < 6
      ensures ResolveFile(ts[k].outJar.value, useLocal) == Ok(StageFileName(pre, post, StageOutputs[k]))
    {
      DeobfOutputShape(useLocal, globalPattern, localPattern, StageOutputs[k].0,
                       Some(StageOutputs[k].1), pre, post);
    }
    StageFileNamesDistinct(pre, post);
  }
}
