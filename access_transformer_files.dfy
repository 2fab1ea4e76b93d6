/**
 * Which files the plugin takes as access-transformer configurations:
 * `AT_SPEC` accepts a regular file whose lower-cased name ends in `_at.cfg`,
 * and the resolved AT sources are filtered through it in order.
 */
module AccessTransformerFiles {
  import opened Text

  /** A `java.io.File` as far as the filter looks at it. */
  datatype FileEntry = FileEntry(name: string, isFile: bool)

  const AtSuffix: string := "_at.cfg"

  /** `AT_SPEC.isSatisfiedBy`. */
  predicate IsAtFile(f: FileEntry)
    ensures IsAtFile(f) ==> f.isFile && |f.name| >= |AtSuffix|
  {
    f.isFile && EndsWith(ToLower(f.name), AtSuffix)
  }

  /** The test ignores the case of the name, and nothing but its last seven characters matter. */
  lemma IsAtFileCharacterised(f: FileEntry)
    ensures IsAtFile(f) <==>
              f.isFile && |f.name| >= 7
              && forall k :: 0 <= k < 7 ==> LowerChar(f.name[|f.name| - 7 + k]) == AtSuffix[k]
    ensures IsAtFile(f) == IsAtFile(FileEntry(ToLower(f.name), f.isFile))
  {
    var low := ToLower(f.name);
    ToLowerIdempotent(f.name);
    if |f.name| >= 7 {
      assert (forall k :: 0 <= k < 7 ==> low[|low| - 7 + k] == AtSuffix[k])
             <==> low[|low| - 7..] == AtSuffix;
    }
  }

  /** `FileCollection.filter(AT_SPEC)`: the accepted files, in their original order. */
  function AtFiles(files: seq<FileEntry>): (r: seq<FileEntry>)
    ensures |r| <= |files|
    ensures forall f :: f in r <==> f in files && IsAtFile(f)
  {
    if files == [] then []
    else
      var last := files[|files| - 1];
      assert files == files[..|files| - 1] + [last];
      AtFiles(files[..|files| - 1]) + (if IsAtFile(last) then [last] else [])
  }
}
