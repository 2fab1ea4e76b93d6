/**
 * The pure path and coordinate computations of the user plugin:
 * the deobfuscated-output name that `chooseDeobfOutput` resolves to, the
 * Maven-repository layout that `getFile` builds for remapped dependencies,
 * and the synthetic `deobf.` coordinates those dependencies are published under.
 */
module ArtifactPaths {
  import opened Wrappers
  import opened Text

  /** Guava's `Strings.isNullOrEmpty`. */
  predicate IsNullOrEmpty(s: Option<string>) {
    s.None? || s.value == ""
  }

  /** The `-classifier` part of a file name; nothing for a null or empty classifier. */
  function ClassifierSuffix(classifier: Option<string>): (r: string)
    ensures r == [] <==> IsNullOrEmpty(classifier)
  {
    if IsNullOrEmpty(classifier) then "" else "-" + classifier.value
  }

  /** The exceptions `String.format` throws for the patterns modelled here. */
  datatype FormatError =
    | MissingFormatArgument   // a second `%s` with only one argument supplied
    | UnsupportedConversion   // a `%` not followed by `s` or `%`

  function Prepend(prefix: string, r: Result<string, FormatError>): Result<string, FormatError> {
    match r
    case Ok(s) => Ok(prefix + s)
    case Err(e) => Err(e)
  }

  /**
   * The parse `Formatter` runs over the whole pattern before it looks at any
   * argument: every `%` must start one of the conversions modelled here, `%s`
   * or `%%`.
   */
  predicate ConversionsValid(p: string)
    decreases |p|
  {
    if p == [] then true
    else if p[0] != '%' then ConversionsValid(p[1..])
    else |p| >= 2 && (p[1] == 's' || p[1] == '%') && ConversionsValid(p[2..])
  }

  /** How many `%s` conversions a well-formed pattern holds. */
  function Placeholders(p: string): nat
    requires ConversionsValid(p)
    decreases |p|
  {
    if p == [] then 0
    else if p[0] != '%' then Placeholders(p[1..])
    else (if p[1] == 's' then 1 else 0) + Placeholders(p[2..])
  }

  /**
   * The formatting pass of `String.format(pattern, arg)`, reading the pattern
   * from the left; `consumed` records whether the one argument has been used.
   * On a well-formed pattern it fails exactly when a `%s` finds the argument used.
   */
  function FormatFrom(pattern: string, arg: string, consumed: bool): (r: Result<string, FormatError>)
    ensures ConversionsValid(pattern) ==>
              (r.Ok? <==> Placeholders(pattern) + (if consumed then 1 else 0) <= 1)
    ensures ConversionsValid(pattern) && r.Err? ==> r.error == MissingFormatArgument
    decreases |pattern|
  {
    if pattern == [] then Ok("")
    else if pattern[0] != '%' then Prepend([pattern[0]], FormatFrom(pattern[1..], arg, consumed))
    else if |pattern| == 1 then Err(UnsupportedConversion)
    else if pattern[1] == '%' then Prepend("%", FormatFrom(pattern[2..], arg, consumed))
    else if pattern[1] == 's' then
      if consumed then Err(MissingFormatArgument)
      else Prepend(arg, FormatFrom(pattern[2..], arg, true))
    else Err(UnsupportedConversion)
  }

  /**
   * `String.format(pattern, arg)`: a malformed conversion anywhere in the
   * pattern is reported before any argument is used; then a second `%s` finds
   * no argument left.
   */
  function Format(pattern: string, arg: string): (r: Result<string, FormatError>)
    ensures r == Err(UnsupportedConversion) <==> !ConversionsValid(pattern)
    ensures r == Err(MissingFormatArgument) <==> ConversionsValid(pattern) && Placeholders(pattern) >= 2
    ensures r.Ok? <==> ConversionsValid(pattern) && Placeholders(pattern) <= 1
  {
    if !ConversionsValid(pattern) then Err(UnsupportedConversion) else FormatFrom(pattern, arg, false)
  }

  /** Literal text in front of a pattern changes neither its validity nor its placeholders. */
  lemma {:induction false} ConversionsValidLiteralPrefix(pre: string, rest: string)
    requires '%' !in pre
    ensures ConversionsValid(pre + rest) == ConversionsValid(rest)
    ensures ConversionsValid(rest) ==> Placeholders(pre + rest) == Placeholders(rest)
  {
    if pre == [] {
      assert pre + rest == rest;
    } else {
      assert (pre + rest)[0] == pre[0];
      assert (pre + rest)[1..] == pre[1..] + rest;
      ConversionsValidLiteralPrefix(pre[1..], rest);
    }
  }

  /** A pattern without `%` formats to itself; a surplus argument is ignored. */
  lemma {:induction false} FormatLiteral(p: string, arg: string, consumed: bool)
    requires '%' !in p
    ensures FormatFrom(p, arg, consumed) == Ok(p)
  {
    if p != [] {
      FormatLiteral(p[1..], arg, consumed);
      assert [p[0]] + p[1..] == p;
    }
  }

  /** Literal text before the first conversion is copied unchanged. */
  lemma {:induction false} FormatLiteralPrefix(pre: string, rest: string, arg: string, consumed: bool)
    requires '%' !in pre
    ensures FormatFrom(pre + rest, arg, consumed) == Prepend(pre, FormatFrom(rest, arg, consumed))
  {
    if pre != [] {
      FormatLiteralPrefix(pre[1..], rest, arg, consumed);
      assert (pre + rest)[0] == pre[0];
      assert (pre + rest)[1..] == pre[1..] + rest;
      match FormatFrom(rest, arg, consumed)
      case Ok(v) => assert [pre[0]] + (pre[1..] + v) == pre + v;
      case Err(_) =>
    } else {
      assert pre + rest == rest;
      match FormatFrom(rest, arg, consumed)
      case Ok(v) => assert pre + v == v;
      case Err(_) =>
    }
  }

  /** A pattern with exactly one `%s` and no other `%` has the argument put in its place. */
  lemma FormatSinglePlaceholder(pre: string, post: string, arg: string)
    requires '%' !in pre && '%' !in post
    ensures Format(pre + "%s" + post, arg) == Ok(pre + arg + post)
  {
    assert pre + "%s" + post == pre + ("%s" + post);
    assert ("%s" + post)[2..] == post;
    ConversionsValidLiteralPrefix(post, []);
    assert post + [] == post;
    ConversionsValidLiteralPrefix(pre, "%s" + post);
    FormatLiteralPrefix(pre, "%s" + post, arg, false);
    FormatLiteral(post, arg, true);
    assert FormatFrom("%s" + post, arg, false) == Ok(arg + post);
    assert pre + (arg + post) == pre + arg + post;
  }

  /**
   * A well-formed pattern with a second `%s` finds no argument left, as
   * `String.format` reports.
   */
  lemma FormatSecondPlaceholderFails(pre: string, mid: string, post: string, arg: string)
    requires '%' !in pre && '%' !in mid && ConversionsValid(post)
    ensures Format(pre + "%s" + mid + "%s" + post, arg) == Err(MissingFormatArgument)
  {
    var tail := "%s" + post;
    var inner := "%s" + (mid + tail);
    assert pre + "%s" + mid + "%s" + post == pre + inner;
    assert tail[2..] == post;
    ConversionsValidLiteralPrefix(mid, tail);
    assert inner[2..] == mid + tail;
    ConversionsValidLiteralPrefix(pre, inner);
  }

  /** A pattern with two `%s` among literal text parses exactly when what follows them does. */
  lemma {:induction false} TwoPlaceholdersValid(pre: string, mid: string, post: string)
    requires '%' !in pre && '%' !in mid
    ensures ConversionsValid(pre + "%s" + mid + "%s" + post) == ConversionsValid(post)
  {
    var tail := "%s" + post;
    var inner := "%s" + (mid + tail);
    assert pre + "%s" + mid + "%s" + post == pre + inner;
    assert tail[2..] == post;
    ConversionsValidLiteralPrefix(mid, tail);
    assert inner[2..] == mid + tail;
    ConversionsValidLiteralPrefix(pre, inner);
  }

  /**
   * A malformed conversion anywhere after two `%s` is what gets reported, not
   * the missing argument the second `%s` would otherwise raise.
   */
  lemma FormatParsesFirst(pre: string, mid: string, post: string, arg: string)
    requires '%' !in pre && '%' !in mid && !ConversionsValid(post)
    ensures Format(pre + "%s" + mid + "%s" + post, arg) == Err(UnsupportedConversion)
  {
    TwoPlaceholdersValid(pre, mid, post);
  }

  /**
   * The file name a `chooseDeobfOutput` closure resolves to: the local pattern
   * when the cache flag holds at resolution time, the global one otherwise,
   * formatted with the appendage, then `-classifier` when there is one, then `.jar`.
   */
  function DeobfOutputPath(useLocal: bool, globalPattern: string, localPattern: string,
                           appendage: string, classifier: Option<string>): (r: Result<string, FormatError>)
    ensures r.Ok? <==> Format(if useLocal then localPattern else globalPattern, appendage).Ok?
    ensures r.Ok? ==> EndsWith(r.value, ".jar")
    ensures r.Ok? && !IsNullOrEmpty(classifier) ==> EndsWith(r.value, "-" + classifier.value + ".jar")
    ensures r.Ok? && IsNullOrEmpty(classifier) ==>
              r.value == Format(if useLocal then localPattern else globalPattern, appendage).value + ".jar"
    ensures r.Ok? ==>
              r.value == Format(if useLocal then localPattern else globalPattern, appendage).value
                         + ClassifierSuffix(classifier) + ".jar"
  {
    var pattern := if useLocal then localPattern else globalPattern;
    match Format(pattern, appendage)
    case Ok(s) => Ok(s + ClassifierSuffix(classifier) + ".jar")
    case Err(e) => Err(e)
  }

  /** With a one-placeholder pattern the resolved name is fully determined. */
  lemma DeobfOutputShape(useLocal: bool, globalPattern: string, localPattern: string,
                         appendage: string, classifier: Option<string>, pre: string, post: string)
    requires (if useLocal then localPattern else globalPattern) == pre + "%s" + post
    requires '%' !in pre && '%' !in post
    ensures DeobfOutputPath(useLocal, globalPattern, localPattern, appendage, classifier)
            == Ok(pre + appendage + post + ClassifierSuffix(classifier) + ".jar")
  {
    FormatSinglePlaceholder(pre, post, appendage);
  }

  /** `String.replace('.', '/')`. */
  function ReplaceDots(s: string): (r: string)
    ensures |r| == |s|
    ensures forall i :: 0 <= i < |s| ==> r[i] == (if s[i] == '.' then '/' else s[i])
  {
    if s == [] then [] else [if s[0] == '.' then '/' else s[0]] + ReplaceDots(s[1..])
  }

  /** The directories a group becomes are exactly its dot-separated parts. */
  lemma {:induction false} ReplaceDotsSegments(g: string)
    requires '/' !in g
    ensures '.' !in ReplaceDots(g)
    ensures SplitOn(ReplaceDots(g), '/') == SplitOn(g, '.')
  {
    if g != [] {
      ReplaceDotsSegments(g[1..]);
      assert ReplaceDots(g)[1..] == ReplaceDots(g[1..]);
    }
  }

  /** The file name `getFile` gives a module's jar. */
  function MavenFileName(name: string, version: string, classifier: Option<string>): string {
    name + "-" + version + ClassifierSuffix(classifier) + ".jar"
  }

  /**
   * `getFile`: the Maven-repository location of a module's jar under `baseDir`,
   * `baseDir/g/r/o/u/p/name/version/name-version[-classifier].jar`.
   */
  function MavenPath(baseDir: string, group: string, name: string, version: string,
                     classifier: Option<string>): (r: string)
    ensures StartsWith(r, baseDir + "/")
    ensures EndsWith(r, "/" + MavenFileName(name, version, classifier))
  {
    var file := MavenFileName(name, version, classifier);
    var tail := version + "/" + file;
    assert tail == version + ("/" + file);
    EndsWithAppend(name + "/", tail, "/" + file);
    EndsWithAppend(ReplaceDots(group) + "/", name + "/" + tail, "/" + file);
    EndsWithAppend(baseDir + "/", ReplaceDots(group) + "/" + (name + "/" + tail), "/" + file);
    baseDir + "/" + (ReplaceDots(group) + "/" + (name + "/" + tail))
  }

  /**
   * Read back along its slashes, a `getFile` path is the base directory, one
   * directory per part of the group, the name, the version and the file name.
   */
  lemma MavenPathLayout(baseDir: string, group: string, name: string, version: string,
                        classifier: Option<string>)
    requires '/' !in group && '/' !in name && '/' !in version
    requires classifier.Some? ==> '/' !in classifier.value
    ensures SplitOn(MavenPath(baseDir, group, name, version, classifier), '/')
            == SplitOn(baseDir, '/') + SplitOn(group, '.')
               + [name, version, MavenFileName(name, version, classifier)]
  {
    var file := MavenFileName(name, version, classifier);
    assert '/' !in file by {
      assert file == name + "-" + version + ClassifierSuffix(classifier) + ".jar";
    }
    var tail2 := name + ['/'] + (version + ['/'] + file);
    TailLayout(name, version, file);
    var g := ReplaceDots(group);
    SplitOnConcat(baseDir, g + ['/'] + tail2, '/');
    SplitOnConcat(g, tail2, '/');
    ReplaceDotsSegments(group);
    AppendAssociative(SplitOn(baseDir, '/'), SplitOn(group, '.'), [name, version, file]);
  }

  lemma TailLayout(name: string, version: string, file: string)
    requires '/' !in name && '/' !in version && '/' !in file
    ensures SplitOn(name + ['/'] + (version + ['/'] + file), '/') == [name, version, file]
  {
    SplitOnConcat(version, file, '/');
    SplitOnNoSeparator(version, '/');
    SplitOnNoSeparator(file, '/');
    SplitOnConcat(name, version + ['/'] + file, '/');
    SplitOnNoSeparator(name, '/');
  }


  /** The synthetic group a remapped dependency is published under. */
  function DeobfGroup(group: string): string {
    "deobf." + group
  }

  /** The synthetic group adds one leading `deobf` part to the original group. */
  lemma DeobfGroupSegments(group: string)
    ensures SplitOn(DeobfGroup(group), '.') == ["deobf"] + SplitOn(group, '.')
  {
    assert DeobfGroup(group) == "deobf" + ['.'] + group;
    SplitOnConcat("deobf", group, '.');
    SplitOnNoSeparator("deobf", '.');
  }

  /** The `group:name:version` string notation for a dependency. */
  function Coordinate(group: string, name: string, version: string): string {
    group + ":" + name + ":" + version
  }

  /** A coordinate reads back into its group, name and version. */
  lemma CoordinateRoundTrip(group: string, name: string, version: string)
    requires ':' !in group && ':' !in name && ':' !in version
    ensures SplitOn(Coordinate(group, name, version), ':') == [group, name, version]
  {
    assert Coordinate(group, name, version) == group + [':'] + (name + [':'] + version);
    SplitOnConcat(group, name + [':'] + version, ':');
    SplitOnConcat(name, version, ':');
    SplitOnNoSeparator(group, ':');
    SplitOnNoSeparator(name, ':');
    SplitOnNoSeparator(version, ':');
  }
}
