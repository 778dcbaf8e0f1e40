/**
 * File-name and file-tree helpers: choosing an unused numbered file name,
 * mapping a MIME type to a file extension and a name format, testing whether
 * one directory lies inside another, and deleting a tree except for one file.
 *
 * The file system is a map from paths to entry kinds. A path is the list of
 * its name components from the root, so the parent of a path is the path
 * without its last component and the root directory is the empty path.
 * Canonical-path resolution, the MIME-type table, the date formatter and the
 * ContentType predicates are parameters.
 */
module FileUtil {
  import opened JavaLang

  type Path = seq<string>

  datatype Kind = Directory | RegularFile

  /** `a` is `b` or one of its ancestors. */
  predicate Below(a: Path, b: Path) {
    |a| <= |b| && b[..|a|] == a
  }

  predicate IsChild(parent: Path, p: Path) {
    |p| == |parent| + 1 && Below(parent, p)
  }

  function Parent(p: Path): Path
    requires p != []
  {
    p[..|p| - 1]
  }

  /** What `listFiles` returns for `p`: the entries directly inside it. */
  function Children(entries: map<Path, Kind>, p: Path): set<Path> {
    set c | c in entries && IsChild(p, c)
  }

  /** Every entry other than the root sits inside a directory that exists. */
  ghost predicate Consistent(entries: map<Path, Kind>) {
    forall p :: p in entries && p != [] ==> Parent(p) in entries && entries[Parent(p)] == Directory
  }

  lemma BelowTransitive(a: Path, b: Path, c: Path)
    requires Below(a, b) && Below(b, c)
    ensures Below(a, c)
  {
    assert c[..|b|][..|a|] == c[..|a|];
  }

  /** Two ancestors of the same path are ancestors one of the other. */
  lemma BelowComparable(a: Path, b: Path, p: Path)
    requires Below(a, p) && Below(b, p)
    ensures Below(a, b) || Below(b, a)
  {
    if |a| <= |b| {
      assert p[..|b|][..|a|] == p[..|a|];
    } else {
      assert p[..|a|][..|b|] == p[..|b|];
    }
  }

  /** In a consistent tree every ancestor of an entry exists, and is a directory. */
  lemma {:induction false} AncestorsPresent(entries: map<Path, Kind>, p: Path, q: Path)
    requires Consistent(entries) && p in entries && Below(q, p)
    ensures q in entries && (q != p ==> entries[q] == Directory)
    decreases |p|
  {
    if q != p {
      assert |q| < |p|;
      var up := Parent(p);
      assert up[..|q|] == p[..|q|];
      if q != up {
        AncestorsPresent(entries, up, q);
      }
    }
  }

  // ---------------------------------------------------------------------------
  // getNewFile: the first free numbered name

  /** `%02d` for 1..99. */
  function TwoDigits(i: int): string
    requires 0 <= i < 100
  {
    [DigitChar(i / 10), DigitChar(i % 10)]
  }

  /**
   * The i-th candidate name: the formatted date, `_`, two digits, and a dot
   * with the extension only when there is an extension.
   */
  function NumberedName(stamp: string, extension: string, i: int): string
    requires 1 <= i <= 99
  {
    stamp + "_" + TwoDigits(i) + (if extension == [] then "" else "." + extension)
  }

  /** Different counters give different names, so the search tries 99 distinct files. */
  lemma NumberedNamesDistinct(stamp: string, extension: string, i: int, j: int)
    requires 1 <= i <= 99 && 1 <= j <= 99 && i != j
    ensures NumberedName(stamp, extension, i) != NumberedName(stamp, extension, j)
  {
    var n := |stamp| + 1;
    assert NumberedName(stamp, extension, i)[n..n + 2] == TwoDigits(i);
    assert NumberedName(stamp, extension, j)[n..n + 2] == TwoDigits(j);
    TwoDigitsInjective(i, j);
  }

  /** `%02d` tells the numbers 0..99 apart. */
  lemma TwoDigitsInjective(i: int, j: int)
    requires 0 <= i < 100 && 0 <= j < 100 && i != j
    ensures TwoDigits(i) != TwoDigits(j)
  {
    assert DigitValue(TwoDigits(i)[0]) == i / 10 && DigitValue(TwoDigits(i)[1]) == i % 10;
    assert DigitValue(TwoDigits(j)[0]) == j / 10 && DigitValue(TwoDigits(j)[1]) == j % 10;
  }

  /** The 99 files the search tries, in order: counter j + 1 at index j. */
  function Candidates(directory: Path, stamp: string, extension: string): (r: seq<Path>)
    ensures |r| == 99
  {
    seq(99, j requires 0 <= j < 99 => directory + [NumberedName(stamp, extension, j + 1)])
  }

  /** The candidates are 99 distinct files, all directly inside `directory`. */
  lemma CandidatesProperties(directory: Path, stamp: string, extension: string)
    ensures var c := Candidates(directory, stamp, extension);
      (forall j :: 0 <= j < 99 ==> IsChild(directory, c[j]) && c[j][|directory|] == NumberedName(stamp, extension, j + 1)) &&
      forall i, j :: 0 <= i < j < 99 ==> c[i] != c[j]
  {
    var c := Candidates(directory, stamp, extension);
    forall j | 0 <= j < 99
      ensures IsChild(directory, c[j])
    {
      assert c[j][..|directory|] == directory;
    }
    forall i, j | 0 <= i < j < 99
      ensures c[i] != c[j]
    {
      NumberedNamesDistinct(stamp, extension, i + 1, j + 1);
      assert c[i][|directory|] != c[j][|directory|];
    }
  }

  /** The index of the first candidate from `i` on that does not exist. */
  function FirstFree(entries: map<Path, Kind>, candidates: seq<Path>, i: nat): (r: Option<nat>)
    requires i <= |candidates|
    ensures r.Some? ==> i <= r.value < |candidates|
    decreases |candidates| - i
  {
    if i == |candidates| then None
    else if candidates[i] !in entries then Some(i)
    else FirstFree(entries, candidates, i + 1)
  }

  /** A candidate the search finds is the first free one from `i` on. */
  lemma {:induction false} FirstFreeFound(entries: map<Path, Kind>, candidates: seq<Path>, i: nat)
    requires i <= |candidates|
    requires FirstFree(entries, candidates, i).Some?
    ensures var k := FirstFree(entries, candidates, i).value;
      candidates[k] !in entries && forall j :: i <= j < k ==> candidates[j] in entries
    decreases |candidates| - i
  {
    if candidates[i] in entries {
      FirstFreeFound(entries, candidates, i + 1);
    }
  }

  /** The search finds nothing exactly when every candidate from `i` on exists. */
  lemma {:induction false} FirstFreeNone(entries: map<Path, Kind>, candidates: seq<Path>, i: nat)
    requires i <= |candidates|
    ensures FirstFree(entries, candidates, i).None? <==> forall j :: i <= j < |candidates| ==> candidates[j] in entries
    decreases |candidates| - i
  {
    if i < |candidates| && candidates[i] in entries {
      FirstFreeNone(entries, candidates, i + 1);
    }
  }

  datatype IoError = IoError

  // ---------------------------------------------------------------------------
  // contentType2Extension and getFileNameFormat

  /** The ContentType constants the extension mapping consults. */
  datatype ContentTypes = ContentTypes(videoMov: string, videoMovExtension: string, videoMp4: string)

  /** A `\w` character: an ASCII letter or digit, or `_`. */
  predicate IsWordChar(c: char) {
    'a' <= c <= 'z' || 'A' <= c <= 'Z' || '0' <= c <= '9' || c == '_'
  }

  /** The number of word characters `s` starts with. */
  function WordRun(s: string): (n: nat)
    ensures n <= |s|
  {
    if s != [] && IsWordChar(s[0]) then 1 + WordRun(s[1..]) else 0
  }

  lemma {:induction false} WordRunProperties(s: string)
    ensures forall i :: 0 <= i < WordRun(s) ==> IsWordChar(s[i])
    ensures WordRun(s) < |s| ==> !IsWordChar(s[WordRun(s)])
  {
    if s != [] && IsWordChar(s[0]) {
      WordRunProperties(s[1..]);
    }
  }

  /** `s.matches("\\w+/\\w+")`. */
  predicate IsTypeSubtype(s: string) {
    var n := WordRun(s);
    0 < n < |s| && s[n] == '/' && WordRun(s[n + 1..]) == |s| - n - 1 && n + 1 < |s|
  }

  /**
   * `s.replaceFirst("\\w+/", "")`: the leftmost run of word characters that
   * is directly followed by a slash is removed, slash included. A match
   * cannot start inside a run of word characters that is not followed by a
   * slash, so the search resumes after such a run.
   */
  function StripTypePrefix(s: string): string
    decreases |s|
  {
    if s == [] then s
    else
      var n := WordRun(s);
      if n > 0 && n < |s| && s[n] == '/' then s[n + 1..]
      else if n > 0 then s[..n] + StripTypePrefix(s[n..])
      else [s[0]] + StripTypePrefix(s[1..])
  }

  /** For a `type/subtype` string the removal leaves the subtype. */
  lemma StripTypeSubtype(s: string)
    requires IsTypeSubtype(s)
    ensures StripTypePrefix(s) == s[WordRun(s) + 1..]
    ensures |StripTypePrefix(s)| > 0
  {
  }

  /**
   * contentType2Extension. The type is lower-cased (null stays null); MOV
   * and MP4 are handled without the MIME table; an empty answer falls back to
   * the subtype of a `type/subtype` string; the result is never null.
   */
  function ContentTypeToExtension(contentType: Option<string>, types: ContentTypes,
                                  mimeExtension: Option<string> -> Option<string>): string
  {
    var lowered := if contentType.Some? then Some(ToLower(contentType.value)) else None;
    var found :=
      if lowered == Some(types.videoMov) then Some(types.videoMovExtension)
      else if lowered == Some(types.videoMp4) then Some(StripTypePrefix(lowered.value))
      else mimeExtension(lowered);
    var extension :=
      if IsEmpty(found) && lowered.Some? && IsTypeSubtype(lowered.value) then Some(StripTypePrefix(lowered.value))
      else found;
    if extension.None? then "" else extension.value
  }

  /**
   * The extension depends on the type only through its lower-case form; MOV
   * and MP4 never consult the MIME table; an empty table answer for a
   * `type/subtype` string gives the subtype; a non-empty answer is used as is.
   */
  lemma ContentTypeToExtensionProperties(contentType: string, types: ContentTypes,
                                         mimeExtension: Option<string> -> Option<string>)
    ensures ContentTypeToExtension(Some(contentType), types, mimeExtension)
            == ContentTypeToExtension(Some(ToLower(contentType)), types, mimeExtension)
    ensures var t := ToLower(contentType);
      t == types.videoMov ==>
        ContentTypeToExtension(Some(contentType), types, mimeExtension) ==
          if types.videoMovExtension == [] && IsTypeSubtype(t) then StripTypePrefix(t) else types.videoMovExtension
    ensures var t := ToLower(contentType);
      t != types.videoMov && t == types.videoMp4 ==>
        ContentTypeToExtension(Some(contentType), types, mimeExtension) == StripTypePrefix(t)
    ensures var t := ToLower(contentType);
      t != types.videoMov && t != types.videoMp4 && !IsEmpty(mimeExtension(Some(t))) ==>
        ContentTypeToExtension(Some(contentType), types, mimeExtension) == mimeExtension(Some(t)).value
    ensures var t := ToLower(contentType);
      t != types.videoMov && t != types.videoMp4 && IsEmpty(mimeExtension(Some(t))) && IsTypeSubtype(t) ==>
        ContentTypeToExtension(Some(contentType), types, mimeExtension) == t[WordRun(t) + 1..]
  {
    ToLowerIdempotent(contentType);
    var t := ToLower(contentType);
    if t != types.videoMov && t == types.videoMp4 && IsTypeSubtype(t) {
      StripTypeSubtype(t);
    }
    if IsTypeSubtype(t) {
      StripTypeSubtype(t);
    }
  }

  /** A null type is looked up as null and has no subtype to fall back on. */
  lemma ContentTypeToExtensionNull(types: ContentTypes, mimeExtension: Option<string> -> Option<string>)
    ensures ContentTypeToExtension(None, types, mimeExtension) ==
      if mimeExtension(None).None? then "" else mimeExtension(None).value
  {
  }

  /**
   * getFileNameFormat: the image format for images; otherwise the generic
   * format, behind a quoted `VID_` prefix for videos and `OTH_` for the rest.
   */
  function FileNameFormat(contentType: Option<string>, isImageType: Option<string> -> bool,
                          isVideoType: Option<string> -> bool, imageFormat: string, fileFormat: string): string
  {
    if isImageType(contentType) then imageFormat
    else if isVideoType(contentType) then "'VID_'" + fileFormat
    else "'OTH_'" + fileFormat
  }

  /**
   * An image type gets the image format unchanged; a video gets the generic
   * format behind the quoted literal `'VID_'`, any other type behind
   * `'OTH_'`. So non-image formats end with the generic format, and a
   * video's format never coincides with another non-image type's.
   */
  lemma FileNameFormatProperties(image: Option<string>, video: Option<string>, other: Option<string>,
                                 isImageType: Option<string> -> bool, isVideoType: Option<string> -> bool,
                                 imageFormat: string, fileFormat: string)
    requires !isImageType(video) && isVideoType(video)
    requires !isImageType(other) && !isVideoType(other)
    ensures isImageType(image) ==> FileNameFormat(image, isImageType, isVideoType, imageFormat, fileFormat) == imageFormat
    ensures FileNameFormat(video, isImageType, isVideoType, imageFormat, fileFormat) == "'VID_'" + fileFormat
    ensures FileNameFormat(other, isImageType, isVideoType, imageFormat, fileFormat) == "'OTH_'" + fileFormat
    ensures var v := FileNameFormat(video, isImageType, isVideoType, imageFormat, fileFormat);
      |v| == 6 + |fileFormat| && v[6..] == fileFormat
    ensures FileNameFormat(video, isImageType, isVideoType, imageFormat, fileFormat)
            != FileNameFormat(other, isImageType, isVideoType, imageFormat, fileFormat)
  {
    var v := FileNameFormat(video, isImageType, isVideoType, imageFormat, fileFormat);
    var o := FileNameFormat(other, isImageType, isVideoType, imageFormat, fileFormat);
    assert v[1] == 'V' && o[1] == 'O';
  }

  // ---------------------------------------------------------------------------
  // isSameOrSubDirectory and isInPrivateDir

  /**
   * What isSameOrSubDirectory answers: both paths resolve, and the resolved
   * base is the resolved child or one of its ancestors.
   */
  predicate SameOrSub(canonical: Path -> Option<Path>, base: Path, child: Path) {
    canonical(base).Some? && canonical(child).Some? && Below(canonical(base).value, canonical(child).value)
  }

  /**
   * isSameOrSubDirectory: resolves both paths (a failure answers false) and
   * walks up from the child through its parents, comparing each with the base.
   */
  method IsSameOrSubDirectory(canonical: Path -> Option<Path>, base: Path, child: Path) returns (r: bool)
    ensures r <==> SameOrSub(canonical, base, child)
  {
    if canonical(base).None? || canonical(child).None? {
      return false;
    }
    var b := canonical(base).value;
    var c := canonical(child).value;
    var parentFile := Some(c);
    while parentFile.Some?
      invariant parentFile.Some? ==> Below(parentFile.value, c)
      invariant forall k :: (parentFile.None? || |parentFile.value| < k) && 0 <= k <= |c| ==> c[..k] != b
      decreases if parentFile.Some? then |parentFile.value| + 1 else 0
    {
      var p := parentFile.value;
      if b == p {
        return true;
      }
      assert c[..|p|] == p;
      parentFile := if p == [] then None else Some(Parent(p));
      if parentFile.Some? {
        assert c[..|p| - 1] == p[..|p| - 1];
      }
    }
    return false;
  }

  datatype Uri = Uri(scheme: Option<string>, path: Path)

  const SCHEME_FILE := "file"

  /** isInPrivateDir: a `file` URI whose path lies in the data directory. */
  method IsInPrivateDir(canonical: Path -> Option<Path>, dataDirectory: Path, uri: Uri) returns (r: bool)
    ensures r <==> uri.scheme == Some(SCHEME_FILE) && SameOrSub(canonical, dataDirectory, uri.path)
  {
    if uri.scheme != Some(SCHEME_FILE) {
      return false;
    }
    r := IsSameOrSubDirectory(canonical, dataDirectory, uri.path);
  }

  // ---------------------------------------------------------------------------
  // removeFileOrDirectoryExcept

  /**
   * The entries deletion of `root` cannot remove when `exclude` lies strictly
   * inside `root` and exists: the excluded subtree, which is never visited,
   * and the directories on the way down to it, which stay non-empty.
   */
  ghost predicate Kept(entries: map<Path, Kind>, root: Path, exclude: Option<Path>, p: Path) {
    exclude.Some? && exclude.value != root && Below(root, exclude.value) && exclude.value in entries &&
    (Below(exclude.value, p) || Below(p, exclude.value))
  }

  /** An entry survives the deletion of `root` when it lies outside `root` or is kept. */
  ghost predicate Survives(entries: map<Path, Kind>, root: Path, exclude: Option<Path>, p: Path) {
    !Below(root, p) || Kept(entries, root, exclude, p)
  }

  /** An entry strictly inside `root` whose top-level directory under `root` is in `done`. */
  ghost predicate Covered(done: set<Path>, root: Path, p: Path) {
    |p| > |root| && Below(root, p) && p[..|root| + 1] in done
  }

  ghost function Subtree(entries: map<Path, Kind>, root: Path): set<Path> {
    set p | p in entries && Below(root, p)
  }

  /** A mutable file system. */
  class FileTree {
    var entries: map<Path, Kind>

    ghost predicate Valid()
      reads this`entries
    {
      Consistent(entries)
    }

    constructor (initial: map<Path, Kind>)
      requires Consistent(initial)
      ensures Valid() && entries == initial
    {
      entries := initial;
    }

    /**
     * File.createNewFile on a path that does not exist: succeeds inside an
     * existing directory and otherwise fails with an IOException.
     */
    method CreateNewFile(p: Path) returns (r: Result<bool, IoError>)
      requires Valid() && p != [] && p !in entries
      modifies this`entries
      ensures Valid()
      ensures Parent(p) in old(entries) && old(entries)[Parent(p)] == Directory ==>
                r == Ok(true) && entries == old(entries)[p := RegularFile]
      ensures !(Parent(p) in old(entries) && old(entries)[Parent(p)] == Directory) ==>
                r.Err? && entries == old(entries)
    {
      if Parent(p) in entries && entries[Parent(p)] == Directory {
        entries := entries[p := RegularFile];
        return Ok(true);
      }
      return Err(IoError);
    }

    /**
     * getNewFile: creates and returns the first of the 99 numbered names
     * that does not exist in `directory`; none when all exist. Creating the
     * file fails when `directory` is not an existing directory.
     */
    method GetNewFile(directory: Path, extension: string, stamp: string) returns (r: Result<Option<Path>, IoError>)
      requires Valid()
      modifies this`entries
      ensures Valid()
      ensures var candidates := Candidates(directory, stamp, extension);
        var k := FirstFree(old(entries), candidates, 0);
        (k.None? ==> r == Ok(None) && entries == old(entries)) &&
        (k.Some? && directory in old(entries) && old(entries)[directory] == Directory ==>
           r == Ok(Some(candidates[k.value])) && entries == old(entries)[candidates[k.value] := RegularFile]) &&
        (k.Some? && !(directory in old(entries) && old(entries)[directory] == Directory) ==>
           r.Err? && entries == old(entries))
    {
      ghost var candidates := Candidates(directory, stamp, extension);
      var i := 1;
      while i <= 99
        invariant 1 <= i <= 100
        invariant FirstFree(entries, candidates, 0) == FirstFree(entries, candidates, i - 1)
        invariant entries == old(entries)
      {
        var newName := NumberedName(stamp, extension, i);
        var testFile := directory + [newName];
        assert testFile == candidates[i - 1];
        if testFile !in entries {
          assert Parent(testFile) == directory;
          var created := CreateNewFile(testFile);
          if created.Err? {
            return Err(created.error);
          }
          return Ok(Some(testFile));
        }
        i := i + 1;
      }
      return Ok(None);
    }

    /**
     * File.delete: removes a file, or a directory that is empty; a
     * non-empty directory stays and the call answers false.
     */
    method Delete(p: Path) returns (deleted: bool)
      requires Valid()
      modifies this`entries
      ensures Valid()
      ensures deleted <==> p in old(entries) && (old(entries)[p] == RegularFile || Children(old(entries), p) == {})
      ensures entries == if deleted then old(entries) - {p} else old(entries)
    {
      if p in entries && (entries[p] == RegularFile || Children(entries, p) == {}) {
        forall q | q in entries - {p} && q != []
          ensures Parent(q) in entries - {p}
        {
          assert IsChild(Parent(q), q);
        }
        entries := entries - {p};
        return true;
      }
      return false;
    }

    /**
     * removeFileOrDirectoryExcept: deletes `root` and everything below it,
     * except that a child equal to `exclude` is skipped at every level.
     * Deletion of a directory fails while anything is left inside it, so
     * the directories leading down to an excluded file survive too.
     */
    method RemoveFileOrDirectoryExcept(root: Path, exclude: Option<Path>)
      requires Valid()
      modifies this`entries
      ensures Valid()
      ensures forall p :: p in entries <==> p in old(entries) && Survives(old(entries), root, exclude, p)
      ensures forall p :: p in entries ==> entries[p] == old(entries)[p]
      decreases |Subtree(entries, root)|, 1
    {
      ghost var start := entries;
      if root !in entries {
        NothingBelowMissing(start, root);
        return;
      }
      if entries[root] == RegularFile {
        NothingBelowFile(start, root);
        var deleted := Delete(root);
        assert deleted && entries == start - {root};
        return;
      }
      ghost var children := RemoveChildren(root, exclude);
      ghost var beforeDelete := entries;
      RootOutcome(start, beforeDelete, root, exclude, children);
      var deleted := Delete(root);
      DirectoryOutcome(start, beforeDelete, entries, root, exclude, children, deleted);
    }

    /**
     * The loop over the directory's listing: every child other than the
     * excluded one is removed recursively; afterwards only the kept paths
     * are left below the visited children.
     */
    method RemoveChildren(root: Path, exclude: Option<Path>) returns (ghost children: set<Path>)
      requires Valid() && root in entries && entries[root] == Directory
      modifies this`entries
      ensures Valid()
      ensures children == Children(old(entries), root)
      ensures forall p :: p in entries <==> p in old(entries) && (!Covered(children, root, p) || Kept(old(entries), root, exclude, p))
      ensures forall p :: p in entries ==> entries[p] == old(entries)[p]
      decreases |Subtree(entries, root)|, 0
    {
      ghost var start := entries;
      var todo := Children(entries, root);
      children := todo;
      ghost var done: set<Path> := {};
      while todo != {}
        invariant todo <= children && done == children - todo
        invariant Valid()
        invariant forall p :: p in entries <==> p in start && (!Covered(done, root, p) || Kept(start, root, exclude, p))
        invariant forall p :: p in entries ==> entries[p] == start[p]
        decreases |todo|
      {
        var file :| file in todo;
        ghost var before := entries;
        if exclude.None? || file != exclude.value {
          SubtreeShrinks(start, before, root, file);
          RemoveFileOrDirectoryExcept(file, exclude);
        }
        ChildVisited(start, before, entries, root, file, exclude, done, children);
        todo := todo - {file};
        done := done + {file};
      }
    }

    /** removeFileOrDirectory: deletes `root` and everything below it. */
    method RemoveFileOrDirectory(root: Path)
      requires Valid()
      modifies this`entries
      ensures Valid()
      ensures forall p :: p in entries <==> p in old(entries) && !Below(root, p)
      ensures forall p :: p in entries ==> entries[p] == old(entries)[p]
    {
      RemoveFileOrDirectoryExcept(root, None);
    }

    /**
     * The guard of moveAllContentUnderDirectory: the move goes ahead only
     * when both paths are directories and the source is neither the target
     * nor one of its ancestors.
     */
    method MoveAllContentUnderDirectoryProceeds(canonical: Path -> Option<Path>, sourceDir: Path, targetDir: Path)
      returns (proceeds: bool)
      ensures proceeds <==> sourceDir in entries && entries[sourceDir] == Directory &&
                            targetDir in entries && entries[targetDir] == Directory &&
                            !SameOrSub(canonical, sourceDir, targetDir)
    {
      if sourceDir in entries && entries[sourceDir] == Directory && targetDir in entries && entries[targetDir] == Directory {
        var inside := IsSameOrSubDirectory(canonical, sourceDir, targetDir);
        if inside {
          return false;
        }
        return true;
      }
      return false;
    }
  }

  /** A missing path has nothing below it. */
  lemma NothingBelowMissing(entries: map<Path, Kind>, root: Path)
    requires Consistent(entries) && root !in entries
    ensures forall p :: p in entries ==> !Below(root, p)
  {
    forall p | p in entries && Below(root, p)
      ensures false
    {
      AncestorsPresent(entries, p, root);
    }
  }

  /** A regular file has nothing strictly below it, and nothing can be kept under it. */
  lemma NothingBelowFile(entries: map<Path, Kind>, root: Path)
    requires Consistent(entries) && root in entries && entries[root] == RegularFile
    ensures forall p :: p in entries && Below(root, p) ==> p == root
    ensures forall exclude: Option<Path>, p :: !Kept(entries, root, exclude, p)
  {
    forall p | p in entries && Below(root, p)
      ensures p == root
    {
      AncestorsPresent(entries, p, root);
    }
  }

  /** The subtree of an unvisited child is smaller than the subtree of its directory. */
  lemma SubtreeShrinks(start: map<Path, Kind>, now: map<Path, Kind>, root: Path, file: Path)
    requires root in start && IsChild(root, file)
    requires forall p :: p in now ==> p in start
    ensures |Subtree(now, file)| < |Subtree(start, root)|
  {
    forall p | p in Subtree(now, file)
      ensures p in Subtree(start, root) && p != root
    {
      BelowTransitive(root, file, p);
    }
    var small, large := Subtree(now, file), Subtree(start, root);
    assert root in large && root !in small;
    assert large == small + (large - small);
    assert |large - small| >= 1;
  }

  /** What one more visited child contributes to the loop's account of the tree. */
  lemma ChildVisited(start: map<Path, Kind>, before: map<Path, Kind>, after: map<Path, Kind>, root: Path, file: Path,
                     exclude: Option<Path>, done: set<Path>, children: set<Path>)
    requires Consistent(start)
    requires children == Children(start, root) && file in children && file !in done && done <= children
    requires forall p :: p in before <==> p in start && (!Covered(done, root, p) || Kept(start, root, exclude, p))
    requires exclude.Some? && file == exclude.value ==> after == before
    requires !(exclude.Some? && file == exclude.value) ==>
               forall p :: p in after <==> p in before && Survives(before, file, exclude, p)
    ensures forall p :: p in after <==> p in start && (!Covered(done + {file}, root, p) || Kept(start, root, exclude, p))
  {
    forall p
      ensures p in after <==> p in start && (!Covered(done + {file}, root, p) || Kept(start, root, exclude, p))
    {
      if Below(file, p) {
        BelowTransitive(root, file, p);
        assert p[..|root| + 1] == file;
        if exclude.Some? && file == exclude.value {
          assert Kept(start, root, exclude, p) <==> file in start;
        } else {
          var e := if exclude.Some? then exclude.value else [];
          if exclude.Some? && Below(root, e) && e != root {
            if Below(e, p) {
              BelowComparable(e, file, p);
            }
            if Below(p, e) {
              BelowTransitive(file, p, e);
            }
            if Below(file, e) {
              assert file != e;
              BelowKeepsCover(done, root, file, e);
            }
          }
          if exclude.Some? && Below(file, e) && file != e {
            BelowTransitive(root, file, e);
          }
        }
      } else if Covered(done + {file}, root, p) {
        assert p[..|root| + 1] in done;
      }
    }
  }

  /** A path strictly inside a child lies in that child's part of the tree only. */
  lemma BelowKeepsCover(done: set<Path>, root: Path, file: Path, e: Path)
    requires IsChild(root, file) && Below(file, e) && file != e && file !in done
    ensures !Covered(done, root, e)
  {
    assert e[..|root| + 1] == e[..|file|] == file;
  }

  /** The deletion of a directory whose children have all been visited. */
  lemma DirectoryOutcome(start: map<Path, Kind>, before: map<Path, Kind>, after: map<Path, Kind>, root: Path,
                         exclude: Option<Path>, children: set<Path>, deleted: bool)
    requires Consistent(start) && root in start && start[root] == Directory
    requires forall p :: p in before <==> p in start && (!Covered(children, root, p) || Kept(start, root, exclude, p))
    requires forall p :: p in start && Below(root, p) && p != root ==> Covered(children, root, p)
    requires Children(before, root) != {} <==> Kept(start, root, exclude, root)
    requires forall p :: p in before ==> before[p] == start[p]
    requires deleted <==> root in before && (before[root] == RegularFile || Children(before, root) == {})
    requires after == if deleted then before - {root} else before
    ensures forall p :: p in after <==> p in start && Survives(start, root, exclude, p)
  {
    assert root in before;
    forall p
      ensures p in after <==> p in start && Survives(start, root, exclude, p)
    {
      if p == root {
        assert Below(root, p);
      }
    }
  }

  /** After all children are visited, the root has a child left exactly when something below it is kept. */
  lemma RootOutcome(start: map<Path, Kind>, now: map<Path, Kind>, root: Path, exclude: Option<Path>, children: set<Path>)
    requires Consistent(start) && root in start
    requires children == Children(start, root)
    requires forall p :: p in now <==> p in start && (!Covered(children, root, p) || Kept(start, root, exclude, p))
    ensures Children(now, root) != {} <==> Kept(start, root, exclude, root)
    ensures forall p :: p in start && Below(root, p) && p != root ==> Covered(children, root, p)
  {
    forall p | p in start && Below(root, p) && p != root
      ensures Covered(children, root, p)
    {
      var c := p[..|root| + 1];
      assert Below(c, p);
      AncestorsPresent(start, p, c);
      assert IsChild(root, c);
    }
    if Kept(start, root, exclude, root) {
      var e := exclude.value;
      var c := e[..|root| + 1];
      assert Below(c, e);
      AncestorsPresent(start, e, c);
      assert IsChild(root, c) && c in children;
      assert c in now;
      assert c in Children(now, root);
    }
    if Children(now, root) != {} {
      var c :| c in Children(now, root);
      assert c[..|root| + 1] == c;
      assert Covered(children, root, c);
    }
  }
}
