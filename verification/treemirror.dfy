/** `AlignTree`: walks the source folder, mirrors its directory structure under
    the target folder, and collects one link descriptor per source file whose
    extension is included. The file system is an immutable entry tree for the
    source and a set of directory paths for the target. */
module TreeMirror {
  import opened Wrappers
  import opened Text
  import opened PathOps
  import opened RelativePath

  /** One item yielded by `DirectoryInfo.EnumerateFileSystemInfos`, in the
      order it is yielded; `Special` is anything that is neither a
      `FileInfo` nor a `DirectoryInfo`. */
  datatype Entry =
    | File(name: string)
    | Dir(name: string, children: seq<Entry>)
    | Special(name: string)

  /** An absolute directory, as its segments from the volume down. */
  type Path = seq<string>

  /** `LinkItem`: the path from the target folder to the source file, and the
      alias under which the file appears in the target project. */
  datatype LinkItem = LinkItem(includePath: string, link: string)

  /** The exceptions that escape `AlignTree`: `NotSupportedException` for an
      unknown entry kind, and `ArgumentNullException` from `MakeRelativePath`. */
  datatype Fault = Unsupported(entry: string) | BadArgument(error: PathError)

  /** The target directories after the walk (kept even when it aborts, as
      created directories stay on disk) and the links, or the fault. */
  datatype Walk = Walk(dirs: set<Path>, links: Result<seq<LinkItem>, Fault>)

  /** What stays fixed for a whole walk: the target project folder and the
      extensions to include. */
  datatype Scan = Scan(targetRoot: Path, extensions: set<string>)

  /** The text of an absolute directory. */
  function PathText(p: Path): string {
    JoinPath(p)
  }

  /** The target folder as the start of every `Include` path (`_targetFolderPath + "/"`). */
  function TargetLocation(scan: Scan): Location {
    Location(PathText(scan.targetRoot) + [AltDirectorySeparator], "file", scan.targetRoot, "")
  }

  /** The source file `name` in `sourceDir` (`FileInfo.FullName`). */
  function FileLocation(sourceDir: Path, name: string): Location {
    Location(Combine(PathText(sourceDir), name), "file", sourceDir, name)
  }

  /** The `Include` value of a file: its path relative to the target folder. */
  function IncludeOf(scan: Scan, sourceDir: Path, name: string): Result<string, PathError> {
    MakeRelativePath(TargetLocation(scan), FileLocation(sourceDir, name))
  }

  /** The `Link` value of a file: its bare name at the root, else the alias
      prefix combined with the name. */
  function AliasOf(linkPath: string, name: string): string {
    if linkPath == "" then name else Combine(linkPath, name)
  }

  /** A file is linked when its lower-cased extension is in the include set. */
  predicate Included(extensions: set<string>, name: string) {
    Lower(Extension(name)) in extensions
  }

  /** A directory is skipped when its lower-cased name is in the ignore set. */
  predicate Ignored(ignore: set<string>, name: string) {
    Lower(name) in ignore
  }

  /** Directory names that differ only in case are ignored alike: the name is
      lower-cased before the lookup. */
  lemma IgnoredIgnoresCase(ignore: set<string>, n: string, m: string)
    requires SameIgnoringCase(n, m)
    ensures Ignored(ignore, n) <==> Ignored(ignore, m)
  {
    LowerIgnoresCase(n, m);
  }

  /** `AlignTree(links, sourceDirectory, targetDirectory, linkPath,
      foldersToIgnore, extensionsToInclude)` over the entries of
      `sourceDirectory`, starting from the target directories `dirs`. No
      directory is removed, and every new one lies strictly below `targetDir`. */
  function AlignTree(scan: Scan, entries: seq<Entry>, sourceDir: Path, targetDir: Path,
                     linkPath: string, ignore: set<string>, dirs: set<Path>): (w: Walk)
    ensures dirs <= w.dirs
    ensures forall p :: p in w.dirs && p !in dirs ==>
              |p| > |targetDir| && p[..|targetDir|] == targetDir
    decreases entries
  {
    if |entries| == 0 then Walk(dirs, Success([]))
    else
      var first := AlignEntry(scan, entries[0], sourceDir, targetDir, linkPath, ignore, dirs);
      if first.links.Failure? then first
      else
        Continue(first, AlignTree(scan, entries[1..], sourceDir, targetDir, linkPath, ignore, first.dirs))
  }

  /** A successful walk followed by the walk of the next entries: the later
      fault, or both link lists in order. */
  function Continue(first: Walk, rest: Walk): Walk
    requires first.links.Success?
  {
    if rest.links.Failure? then rest
    else Walk(rest.dirs, Success(first.links.value + rest.links.value))
  }

  /** One iteration of the `foreach` in `AlignTree`. */
  function AlignEntry(scan: Scan, entry: Entry, sourceDir: Path, targetDir: Path,
                      linkPath: string, ignore: set<string>, dirs: set<Path>): (w: Walk)
    ensures dirs <= w.dirs
    ensures forall p :: p in w.dirs && p !in dirs ==>
              |p| > |targetDir| && p[..|targetDir|] == targetDir
    decreases entry
  {
    match entry
    case Dir(n, children) =>
      if Ignored(ignore, n) then Walk(dirs, Success([]))
      else
        var child := targetDir + [n];
        var created := if child in dirs then dirs else dirs + {child};
        var w := AlignTree(scan, children, sourceDir + [n], child, Combine(linkPath, n), {}, created);
        BelowChildIsBelow(dirs, created, w.dirs, targetDir, n);
        w
    case File(n) =>
      if !Included(scan.extensions, n) then Walk(dirs, Success([]))
      else
        match IncludeOf(scan, sourceDir, n) {
          case Failure(e) => Walk(dirs, Failure(BadArgument(e)))
          case Success(includePath) => Walk(dirs, Success([LinkItem(includePath, AliasOf(linkPath, n))]))
        }
    case Special(n) =>
      Walk(dirs, Failure(Unsupported(n)))
  }

  /** Directories added below a child of `targetDir` lie below `targetDir`. */
  lemma BelowChildIsBelow(dirs: set<Path>, created: set<Path>, all: set<Path>, targetDir: Path, n: string)
    requires forall p :: p in created && p !in dirs ==> p == targetDir + [n]
    requires forall p :: p in all && p !in created ==>
               |p| > |targetDir + [n]| && p[..|targetDir + [n]|] == targetDir + [n]
    ensures forall p :: p in all && p !in dirs ==> |p| > |targetDir| && p[..|targetDir|] == targetDir
  {
    var child := targetDir + [n];
    forall p | p in all && p !in dirs
      ensures |p| > |targetDir| && p[..|targetDir|] == targetDir
    {
      if p in created {
        assert p == child;
      } else {
        assert p[..|targetDir|] == p[..|child|][..|targetDir|];
      }
    }
  }

  // ---------------------------------------------------------------------
  // Reference descriptions of the walk

  /** A source file to be linked: the directory chain below the source root
      that leads to it, and its name. */
  datatype SourceFile = SourceFile(chain: seq<string>, name: string)

  /** The files the walk should link, in depth-first enumeration order: every
      included file, descending into every directory not ignored, where only
      the outermost level sees the ignore set. */
  function Collected(entries: seq<Entry>, chain: seq<string>, ignore: set<string>,
                     extensions: set<string>): (r: seq<SourceFile>)
    ensures forall i :: 0 <= i < |r| ==>
              Included(extensions, r[i].name) && |r[i].chain| >= |chain| && r[i].chain[..|chain|] == chain
    decreases entries
  {
    if |entries| == 0 then []
    else CollectedEntry(entries[0], chain, ignore, extensions)
         + Collected(entries[1..], chain, ignore, extensions)
  }

  function CollectedEntry(entry: Entry, chain: seq<string>, ignore: set<string>,
                          extensions: set<string>): (r: seq<SourceFile>)
    ensures forall i :: 0 <= i < |r| ==>
              Included(extensions, r[i].name) && |r[i].chain| >= |chain| && r[i].chain[..|chain|] == chain
    decreases entry
  {
    match entry
    case Dir(n, children) =>
      if Ignored(ignore, n) then []
      else
        var r := Collected(children, chain + [n], {}, extensions);
        ChainsBelowParent(r, chain, n);
        r
    case File(n) => if Included(extensions, n) then [SourceFile(chain, n)] else []
    case Special(_) => []
  }

  /** Files below `chain + [n]` are below `chain`. */
  lemma ChainsBelowParent(r: seq<SourceFile>, chain: seq<string>, n: string)
    requires forall i :: 0 <= i < |r| ==> |r[i].chain| >= |chain + [n]| && r[i].chain[..|chain + [n]|] == chain + [n]
    ensures forall i :: 0 <= i < |r| ==> |r[i].chain| >= |chain| && r[i].chain[..|chain|] == chain
  {
    forall i | 0 <= i < |r|
      ensures |r[i].chain| >= |chain| && r[i].chain[..|chain|] == chain
    {
      assert r[i].chain[..|chain|] == r[i].chain[..|chain| + 1][..|chain|];
    }
  }

  /** The target directories the walk mirrors: one per directory not ignored. */
  function Mirrored(entries: seq<Entry>, targetDir: Path, ignore: set<string>): set<Path>
    decreases entries
  {
    if |entries| == 0 then {}
    else MirroredEntry(entries[0], targetDir, ignore) + Mirrored(entries[1..], targetDir, ignore)
  }

  function MirroredEntry(entry: Entry, targetDir: Path, ignore: set<string>): set<Path>
    decreases entry
  {
    match entry
    case Dir(n, children) =>
      if Ignored(ignore, n) then {}
      else {targetDir + [n]} + Mirrored(children, targetDir + [n], {})
    case _ => {}
  }

  /** No entry of an unsupported kind is reached by the walk. */
  predicate Supported(entries: seq<Entry>, ignore: set<string>)
    decreases entries
  {
    |entries| == 0 || (SupportedEntry(entries[0], ignore) && Supported(entries[1..], ignore))
  }

  predicate SupportedEntry(entry: Entry, ignore: set<string>)
    decreases entry
  {
    match entry
    case Dir(n, children) => Ignored(ignore, n) || Supported(children, {})
    case File(_) => true
    case Special(_) => false
  }

  /** Every file and directory carries a name the file system can produce. */
  predicate WellFormed(entries: seq<Entry>)
    decreases entries
  {
    |entries| == 0 || (WellFormedEntry(entries[0]) && WellFormed(entries[1..]))
  }

  predicate WellFormedEntry(entry: Entry)
    decreases entry
  {
    match entry
    case Dir(n, children) => IsEntryName(n) && WellFormed(children)
    case File(n) => IsEntryName(n)
    case Special(_) => true
  }

  /** The links are the expected ones for `files`, position by position: the
      include is the file's path relative to the target folder and the alias is
      its directory chain joined with its name. */
  predicate LinksMatch(scan: Scan, root: Path, links: seq<LinkItem>, files: seq<SourceFile>) {
    && |links| == |files|
    && forall i :: 0 <= i < |links| ==>
         && IncludeOf(scan, root + files[i].chain, files[i].name) == Success(links[i].includePath)
         && links[i].link == JoinPath(files[i].chain + [files[i].name])
  }

  lemma LinksMatchAppend(scan: Scan, root: Path, l1: seq<LinkItem>, f1: seq<SourceFile>,
                         l2: seq<LinkItem>, f2: seq<SourceFile>)
    requires LinksMatch(scan, root, l1, f1) && LinksMatch(scan, root, l2, f2)
    ensures LinksMatch(scan, root, l1 + l2, f1 + f2)
  {
    forall i | 0 <= i < |l1 + l2|
      ensures IncludeOf(scan, root + (f1 + f2)[i].chain, (f1 + f2)[i].name) == Success((l1 + l2)[i].includePath)
      ensures (l1 + l2)[i].link == JoinPath((f1 + f2)[i].chain + [(f1 + f2)[i].name])
    {
      if i >= |l1| {
        assert (l1 + l2)[i] == l2[i - |l1|] && (f1 + f2)[i] == f2[i - |f1|];
      }
    }
  }

  // ---------------------------------------------------------------------
  // Properties of the walk

  /** The walk produces exactly the reference links: it succeeds precisely when
      no unsupported entry is reached, and then yields one link per collected
      file, in the same order, with the alias chain grown by one directory name
      per level. The walk runs in `sourceDir`, which is `chain` below `root`,
      with alias prefix `linkPath`, which is `chain` joined. */
  lemma {:induction false} AlignTreeMatchesCollected(scan: Scan, root: Path, entries: seq<Entry>,
                                                     chain: seq<string>, sourceDir: Path, linkPath: string,
                                                     targetDir: Path, ignore: set<string>, dirs: set<Path>)
    requires WellFormed(entries) && AreEntryNames(chain)
    requires sourceDir == root + chain && linkPath == JoinPath(chain)
    ensures var w := AlignTree(scan, entries, sourceDir, targetDir, linkPath, ignore, dirs);
            && (w.links.Success? <==> Supported(entries, ignore))
            && (w.links.Success? ==>
                  LinksMatch(scan, root, w.links.value, Collected(entries, chain, ignore, scan.extensions)))
    decreases entries, 2
  {
    if |entries| > 0 {
      AlignEntryMatchesCollected(scan, root, entries[0], chain, sourceDir, linkPath, targetDir, ignore, dirs);
      var first := AlignEntry(scan, entries[0], sourceDir, targetDir, linkPath, ignore, dirs);
      if first.links.Success? {
        AlignTreeMatchesCollected(scan, root, entries[1..], chain, sourceDir, linkPath, targetDir, ignore, first.dirs);
        var rest := AlignTree(scan, entries[1..], sourceDir, targetDir, linkPath, ignore, first.dirs);
        if rest.links.Success? {
          LinksMatchAppend(scan, root, first.links.value, CollectedEntry(entries[0], chain, ignore, scan.extensions),
                           rest.links.value, Collected(entries[1..], chain, ignore, scan.extensions));
        }
      }
    }
  }

  lemma {:induction false} AlignEntryMatchesCollected(scan: Scan, root: Path, entry: Entry,
                                                      chain: seq<string>, sourceDir: Path, linkPath: string,
                                                      targetDir: Path, ignore: set<string>, dirs: set<Path>)
    requires WellFormedEntry(entry) && AreEntryNames(chain)
    requires sourceDir == root + chain && linkPath == JoinPath(chain)
    ensures var w := AlignEntry(scan, entry, sourceDir, targetDir, linkPath, ignore, dirs);
            && (w.links.Success? <==> SupportedEntry(entry, ignore))
            && (w.links.Success? ==>
                  LinksMatch(scan, root, w.links.value, CollectedEntry(entry, chain, ignore, scan.extensions)))
    decreases entry, 1
  {
    match entry
    case Dir(n, children) =>
      if !Ignored(ignore, n) {
        DirMatchesCollected(scan, root, n, children, chain, sourceDir, linkPath, targetDir, dirs);
      }
    case File(n) =>
      FileMatchesCollected(scan, root, n, chain, sourceDir, linkPath, targetDir, ignore, dirs);
    case Special(_) =>
  }

  lemma {:induction false} DirMatchesCollected(scan: Scan, root: Path, n: string, children: seq<Entry>,
                                               chain: seq<string>, sourceDir: Path, linkPath: string,
                                               targetDir: Path, dirs: set<Path>)
    requires IsEntryName(n) && WellFormed(children) && AreEntryNames(chain)
    requires sourceDir == root + chain && linkPath == JoinPath(chain)
    ensures var child := targetDir + [n];
            var created := if child in dirs then dirs else dirs + {child};
            var w := AlignTree(scan, children, sourceDir + [n], child, Combine(linkPath, n), {}, created);
            && (w.links.Success? <==> Supported(children, {}))
            && (w.links.Success? ==>
                  LinksMatch(scan, root, w.links.value, Collected(children, chain + [n], {}, scan.extensions)))
    decreases Dir(n, children), 0
  {
    var child := targetDir + [n];
    var created := if child in dirs then dirs else dirs + {child};
    CombineExtendsChain(chain, n);
    assert sourceDir + [n] == root + (chain + [n]);
    AlignTreeMatchesCollected(scan, root, children, chain + [n], sourceDir + [n], Combine(linkPath, n),
                              child, {}, created);
  }

  lemma FileMatchesCollected(scan: Scan, root: Path, n: string, chain: seq<string>,
                             sourceDir: Path, linkPath: string, targetDir: Path,
                             ignore: set<string>, dirs: set<Path>)
    requires IsEntryName(n) && AreEntryNames(chain)
    requires sourceDir == root + chain && linkPath == JoinPath(chain)
    ensures var w := AlignEntry(scan, File(n), sourceDir, targetDir, linkPath, ignore, dirs);
            && w.links.Success?
            && LinksMatch(scan, root, w.links.value, CollectedEntry(File(n), chain, ignore, scan.extensions))
  {
    var w := AlignEntry(scan, File(n), sourceDir, targetDir, linkPath, ignore, dirs);
    if Included(scan.extensions, n) {
      FileLink(scan, root, chain, n);
      var inc := IncludeOf(scan, sourceDir, n).value;
      IncludedFileWalk(scan, n, sourceDir, targetDir, linkPath, ignore, dirs, inc);
      SingleFileMatch(scan, root, chain, n, inc, AliasOf(linkPath, n));
      assert CollectedEntry(File(n), chain, ignore, scan.extensions) == [SourceFile(chain, n)];
    } else {
      assert w == Walk(dirs, Success([]));
    }
  }

  lemma IncludedFileWalk(scan: Scan, n: string, sourceDir: Path, targetDir: Path, linkPath: string,
                         ignore: set<string>, dirs: set<Path>, inc: string)
    requires Included(scan.extensions, n) && IncludeOf(scan, sourceDir, n) == Success(inc)
    ensures AlignEntry(scan, File(n), sourceDir, targetDir, linkPath, ignore, dirs)
         == Walk(dirs, Success([LinkItem(inc, AliasOf(linkPath, n))]))
  {
  }

  lemma SingleFileMatch(scan: Scan, root: Path, chain: seq<string>, n: string, inc: string, alias: string)
    requires IncludeOf(scan, root + chain, n) == Success(inc)
    requires alias == JoinPath(chain + [n])
    ensures LinksMatch(scan, root, [LinkItem(inc, alias)], [SourceFile(chain, n)])
  {
  }

  /** The link of one included file: its include path is always computable, and
      its alias is the directory chain joined with its name. */
  lemma FileLink(scan: Scan, root: Path, chain: seq<string>, n: string)
    requires IsEntryName(n) && AreEntryNames(chain)
    ensures IncludeOf(scan, root + chain, n).Success?
    ensures AliasOf(JoinPath(chain), n) == JoinPath(chain + [n])
  {
    CombineNonEmpty(PathText(root + chain), n);
    if |chain| == 0 {
      assert chain + [n] == [n];
    } else {
      JoinPathShape(chain);
      CombineExtendsChain(chain, n);
    }
  }

  /** Directory creation is safe to repeat: starting from more directories
      adds exactly those directories to the outcome and changes no link. */
  lemma {:induction false} AlignTreeShift(scan: Scan, entries: seq<Entry>, sourceDir: Path, targetDir: Path,
                                          linkPath: string, ignore: set<string>, dirs: set<Path>, extra: set<Path>)
    ensures var w := AlignTree(scan, entries, sourceDir, targetDir, linkPath, ignore, dirs);
            AlignTree(scan, entries, sourceDir, targetDir, linkPath, ignore, dirs + extra) == Walk(w.dirs + extra, w.links)
    decreases entries
  {
    if |entries| > 0 {
      AlignEntryShift(scan, entries[0], sourceDir, targetDir, linkPath, ignore, dirs, extra);
      var first := AlignEntry(scan, entries[0], sourceDir, targetDir, linkPath, ignore, dirs);
      if first.links.Success? {
        AlignTreeShift(scan, entries[1..], sourceDir, targetDir, linkPath, ignore, first.dirs, extra);
      }
    }
  }

  lemma {:induction false} AlignEntryShift(scan: Scan, entry: Entry, sourceDir: Path, targetDir: Path,
                                           linkPath: string, ignore: set<string>, dirs: set<Path>, extra: set<Path>)
    ensures var w := AlignEntry(scan, entry, sourceDir, targetDir, linkPath, ignore, dirs);
            AlignEntry(scan, entry, sourceDir, targetDir, linkPath, ignore, dirs + extra) == Walk(w.dirs + extra, w.links)
    decreases entry
  {
    match entry
    case Dir(n, children) =>
      if !Ignored(ignore, n) {
        var child := targetDir + [n];
        var created := if child in dirs then dirs else dirs + {child};
        var created' := if child in dirs + extra then dirs + extra else dirs + extra + {child};
        assert created' == created + extra;
        AlignTreeShift(scan, children, sourceDir + [n], child, Combine(linkPath, n), {}, created, extra);
      }
    case File(_) =>
    case Special(_) =>
  }

  /** Running the walk a second time on the directories the first run left
      behind changes nothing: same directories, same links or fault. */
  lemma AlignTreeIdempotent(scan: Scan, entries: seq<Entry>, sourceDir: Path, targetDir: Path,
                            linkPath: string, ignore: set<string>, dirs: set<Path>)
    ensures var w := AlignTree(scan, entries, sourceDir, targetDir, linkPath, ignore, dirs);
            AlignTree(scan, entries, sourceDir, targetDir, linkPath, ignore, w.dirs) == w
  {
    var w := AlignTree(scan, entries, sourceDir, targetDir, linkPath, ignore, dirs);
    AlignTreeShift(scan, entries, sourceDir, targetDir, linkPath, ignore, dirs, w.dirs);
    assert dirs + w.dirs == w.dirs;
    assert w.dirs + w.dirs == w.dirs;
  }

  /** The walk creates only mirrored directories, and on success all of them. */
  lemma {:induction false} AlignTreeDirs(scan: Scan, entries: seq<Entry>, sourceDir: Path, targetDir: Path,
                                         linkPath: string, ignore: set<string>, dirs: set<Path>)
    ensures var w := AlignTree(scan, entries, sourceDir, targetDir, linkPath, ignore, dirs);
            && w.dirs <= dirs + Mirrored(entries, targetDir, ignore)
            && (w.links.Success? ==> w.dirs == dirs + Mirrored(entries, targetDir, ignore))
    decreases entries
  {
    if |entries| > 0 {
      AlignEntryDirs(scan, entries[0], sourceDir, targetDir, linkPath, ignore, dirs);
      var first := AlignEntry(scan, entries[0], sourceDir, targetDir, linkPath, ignore, dirs);
      if first.links.Success? {
        AlignTreeDirs(scan, entries[1..], sourceDir, targetDir, linkPath, ignore, first.dirs);
      }
    }
  }

  lemma {:induction false} AlignEntryDirs(scan: Scan, entry: Entry, sourceDir: Path, targetDir: Path,
                                          linkPath: string, ignore: set<string>, dirs: set<Path>)
    ensures var w := AlignEntry(scan, entry, sourceDir, targetDir, linkPath, ignore, dirs);
            && w.dirs <= dirs + MirroredEntry(entry, targetDir, ignore)
            && (w.links.Success? ==> w.dirs == dirs + MirroredEntry(entry, targetDir, ignore))
    decreases entry
  {
    match entry
    case Dir(n, children) =>
      if !Ignored(ignore, n) {
        var child := targetDir + [n];
        var created := if child in dirs then dirs else dirs + {child};
        AlignTreeDirs(scan, children, sourceDir + [n], child, Combine(linkPath, n), {}, created);
      }
    case File(_) =>
    case Special(_) =>
  }

  lemma ContinueAssociative(first: Walk, middle: Walk, last: Walk)
    requires first.links.Success? && middle.links.Success?
    ensures Continue(first, Continue(middle, last)) == Continue(Continue(first, middle), last)
  {
    if last.links.Success? {
      assert first.links.value + (middle.links.value + last.links.value)
          == (first.links.value + middle.links.value) + last.links.value;
    }
  }

  /** Depth-first order: walking `a + b` walks `a`, then `b` from the
      directories `a` left, and concatenates the links; a fault in `a` ends
      the walk before `b`. */
  lemma {:induction false} AlignTreeConcat(scan: Scan, a: seq<Entry>, b: seq<Entry>, sourceDir: Path,
                                           targetDir: Path, linkPath: string, ignore: set<string>, dirs: set<Path>)
    ensures var wa := AlignTree(scan, a, sourceDir, targetDir, linkPath, ignore, dirs);
            AlignTree(scan, a + b, sourceDir, targetDir, linkPath, ignore, dirs)
            == if wa.links.Failure? then wa
               else Continue(wa, AlignTree(scan, b, sourceDir, targetDir, linkPath, ignore, wa.dirs))
    decreases |a|
  {
    if |a| == 0 {
      assert a + b == b;
      var wb := AlignTree(scan, b, sourceDir, targetDir, linkPath, ignore, dirs);
      if wb.links.Success? {
        assert [] + wb.links.value == wb.links.value;
      }
    } else {
      var ab := a + b;
      assert ab[0] == a[0];
      assert ab[1..] == a[1..] + b;
      var first := AlignEntry(scan, a[0], sourceDir, targetDir, linkPath, ignore, dirs);
      if first.links.Success? {
        AlignTreeConcat(scan, a[1..], b, sourceDir, targetDir, linkPath, ignore, first.dirs);
        var ra := AlignTree(scan, a[1..], sourceDir, targetDir, linkPath, ignore, first.dirs);
        if ra.links.Success? {
          ContinueAssociative(first, ra, AlignTree(scan, b, sourceDir, targetDir, linkPath, ignore, ra.dirs));
        }
      }
    }
  }

  // ---------------------------------------------------------------------
  // Single entries

  /** Walking an ignored directory is walking nothing: it is neither mirrored
      nor scanned, wherever it sits among its siblings. */
  lemma IgnoredDirSkipped(scan: Scan, pre: seq<Entry>, n: string, children: seq<Entry>, post: seq<Entry>,
                          sourceDir: Path, targetDir: Path, linkPath: string, ignore: set<string>, dirs: set<Path>)
    requires Ignored(ignore, n)
    ensures AlignTree(scan, pre + [Dir(n, children)] + post, sourceDir, targetDir, linkPath, ignore, dirs)
         == AlignTree(scan, pre + post, sourceDir, targetDir, linkPath, ignore, dirs)
  {
    var d := [Dir(n, children)];
    AlignTreeConcat(scan, pre + d, post, sourceDir, targetDir, linkPath, ignore, dirs);
    AlignTreeConcat(scan, pre, d, sourceDir, targetDir, linkPath, ignore, dirs);
    AlignTreeConcat(scan, pre, post, sourceDir, targetDir, linkPath, ignore, dirs);
    var wp := AlignTree(scan, pre, sourceDir, targetDir, linkPath, ignore, dirs);
    if wp.links.Success? {
      SingleEntryWalk(scan, Dir(n, children), sourceDir, targetDir, linkPath, ignore, wp.dirs);
      assert AlignEntry(scan, Dir(n, children), sourceDir, targetDir, linkPath, ignore, wp.dirs)
          == Walk(wp.dirs, Success([]));
      ContinueWithNothing(wp);
    }
  }

  /** An entry of an unsupported kind aborts the walk with `NotSupportedException`
      once the entries before it have been walked; nothing after it is visited. */
  lemma SpecialAborts(scan: Scan, pre: seq<Entry>, n: string, post: seq<Entry>,
                      sourceDir: Path, targetDir: Path, linkPath: string, ignore: set<string>, dirs: set<Path>)
    requires AlignTree(scan, pre, sourceDir, targetDir, linkPath, ignore, dirs).links.Success?
    ensures AlignTree(scan, pre + [Special(n)] + post, sourceDir, targetDir, linkPath, ignore, dirs)
         == Walk(AlignTree(scan, pre, sourceDir, targetDir, linkPath, ignore, dirs).dirs, Failure(Unsupported(n)))
  {
    var x := [Special(n)];
    var wp := AlignTree(scan, pre, sourceDir, targetDir, linkPath, ignore, dirs);
    AlignTreeConcat(scan, pre + x, post, sourceDir, targetDir, linkPath, ignore, dirs);
    AlignTreeConcat(scan, pre, x, sourceDir, targetDir, linkPath, ignore, dirs);
    SingleEntryWalk(scan, Special(n), sourceDir, targetDir, linkPath, ignore, wp.dirs);
  }

  /** A file yields exactly one link when its lower-cased extension is
      included and none otherwise, and creates no directory. */
  lemma FileYieldsLinkIffIncluded(scan: Scan, n: string, sourceDir: Path, targetDir: Path,
                                  linkPath: string, ignore: set<string>, dirs: set<Path>)
    requires IsEntryName(n)
    ensures var w := AlignTree(scan, [File(n)], sourceDir, targetDir, linkPath, ignore, dirs);
            && w.dirs == dirs
            && w.links.Success?
            && (|w.links.value| == 1 <==> Included(scan.extensions, n))
            && (|w.links.value| == 0 <==> !Included(scan.extensions, n))
            && (|w.links.value| == 1 ==> w.links.value[0].link == AliasOf(linkPath, n))
  {
    SingleEntryWalk(scan, File(n), sourceDir, targetDir, linkPath, ignore, dirs);
    if Included(scan.extensions, n) {
      CombineNonEmpty(PathText(sourceDir), n);
      assert IncludeOf(scan, sourceDir, n).Success? by {
        assert TargetLocation(scan).text != "";
        assert FileLocation(sourceDir, n).text != "";
      }
      IncludedFileWalk(scan, n, sourceDir, targetDir, linkPath, ignore, dirs, IncludeOf(scan, sourceDir, n).value);
    } else {
      assert AlignEntry(scan, File(n), sourceDir, targetDir, linkPath, ignore, dirs) == Walk(dirs, Success([]));
    }
  }

  /** Walking a single entry is walking that entry. */
  lemma SingleEntryWalk(scan: Scan, e: Entry, sourceDir: Path, targetDir: Path,
                        linkPath: string, ignore: set<string>, dirs: set<Path>)
    ensures AlignTree(scan, [e], sourceDir, targetDir, linkPath, ignore, dirs)
         == AlignEntry(scan, e, sourceDir, targetDir, linkPath, ignore, dirs)
  {
    var first := AlignEntry(scan, e, sourceDir, targetDir, linkPath, ignore, dirs);
    assert [e][1..] == [];
    if first.links.Success? {
      assert AlignTree(scan, [], sourceDir, targetDir, linkPath, ignore, first.dirs) == Walk(first.dirs, Success([]));
      ContinueWithNothing(first);
    }
  }

  lemma ContinueWithNothing(first: Walk)
    requires first.links.Success?
    ensures Continue(first, Walk(first.dirs, Success([]))) == first
  {
    assert first.links.value + [] == first.links.value;
  }

  // ---------------------------------------------------------------------
  // The walk as `Main` starts it

  /** Directory names skipped at the top of the source tree. */
  const RootIgnore: set<string> := {"properties", "bin", "obj"}

  /** Extensions of the files that are linked. */
  const CodeExtensions: set<string> := {".cs"}

  /** `AlignTree` as `Main` calls it: from the source folder to the target
      folder, with an empty alias prefix. */
  function Mirror(sourceRoot: Path, entries: seq<Entry>, targetRoot: Path, dirs: set<Path>): Walk {
    AlignTree(Scan(targetRoot, CodeExtensions), entries, sourceRoot, targetRoot, "", RootIgnore, dirs)
  }

  /** Every file carries an entry name and sits below entry-named directories. */
  predicate NamedFiles(files: seq<SourceFile>) {
    forall i :: 0 <= i < |files| ==> AreEntryNames(files[i].chain) && IsEntryName(files[i].name)
  }

  lemma {:induction false} CollectedNames(entries: seq<Entry>, chain: seq<string>, ignore: set<string>,
                                          extensions: set<string>)
    requires WellFormed(entries) && AreEntryNames(chain)
    ensures NamedFiles(Collected(entries, chain, ignore, extensions))
    decreases entries
  {
    if |entries| > 0 {
      CollectedEntryNames(entries[0], chain, ignore, extensions);
      CollectedNames(entries[1..], chain, ignore, extensions);
      NamedFilesAppend(CollectedEntry(entries[0], chain, ignore, extensions),
                       Collected(entries[1..], chain, ignore, extensions));
    }
  }

  lemma NamedFilesAppend(a: seq<SourceFile>, b: seq<SourceFile>)
    requires NamedFiles(a) && NamedFiles(b)
    ensures NamedFiles(a + b)
  {
    forall i | 0 <= i < |a + b|
      ensures AreEntryNames((a + b)[i].chain) && IsEntryName((a + b)[i].name)
    {
      if i >= |a| {
        assert (a + b)[i] == b[i - |a|];
      } else {
        assert (a + b)[i] == a[i];
      }
    }
  }

  lemma {:induction false} CollectedEntryNames(entry: Entry, chain: seq<string>, ignore: set<string>,
                                               extensions: set<string>)
    requires WellFormedEntry(entry) && AreEntryNames(chain)
    ensures NamedFiles(CollectedEntry(entry, chain, ignore, extensions))
    decreases entry
  {
    match entry
    case Dir(n, children) =>
      if !Ignored(ignore, n) {
        assert AreEntryNames(chain + [n]);
        CollectedNames(children, chain + [n], {}, extensions);
      }
    case File(_) =>
    case Special(_) =>
  }

  /** The whole walk: it fails exactly when an unsupported entry is reached;
      otherwise it mirrors every directory not ignored and yields one link per
      collected `.cs` file, in order, whose include path denotes the source
      file (relative to the target folder, or its full path on another
      volume) and whose alias is the file's path below the source folder. */
  lemma MirrorLinks(sourceRoot: Path, entries: seq<Entry>, targetRoot: Path, dirs: set<Path>)
    requires WellFormed(entries)
    requires forall i :: 0 <= i < |sourceRoot| ==> PlainSegment(sourceRoot[i])
    ensures var w := Mirror(sourceRoot, entries, targetRoot, dirs);
            var files := Collected(entries, [], RootIgnore, CodeExtensions);
            && (w.links.Success? <==> Supported(entries, RootIgnore))
            && (w.links.Success? ==>
                  && w.dirs == dirs + Mirrored(entries, targetRoot, RootIgnore)
                  && |w.links.value| == |files|
                  && forall i :: 0 <= i < |files| ==>
                       && Denotes(TargetLocation(Scan(targetRoot, CodeExtensions)), w.links.value[i].includePath,
                                  FileLocation(sourceRoot + files[i].chain, files[i].name))
                       && w.links.value[i].link == JoinPath(files[i].chain + [files[i].name]))
  {
    var scan := Scan(targetRoot, CodeExtensions);
    var w := Mirror(sourceRoot, entries, targetRoot, dirs);
    var files := Collected(entries, [], RootIgnore, CodeExtensions);
    assert sourceRoot + [] == sourceRoot;
    assert JoinPath([]) == "";
    AlignTreeMatchesCollected(scan, sourceRoot, entries, [], sourceRoot, "", targetRoot, RootIgnore, dirs);
    AlignTreeDirs(scan, entries, sourceRoot, targetRoot, "", RootIgnore, dirs);
    if w.links.Success? {
      CollectedNames(entries, [], RootIgnore, CodeExtensions);
      forall i | 0 <= i < |files|
        ensures Denotes(TargetLocation(scan), w.links.value[i].includePath,
                        FileLocation(sourceRoot + files[i].chain, files[i].name))
      {
        IncludeResolves(scan, sourceRoot, files[i], w.links.value[i].includePath);
      }
    }
  }

  /** The include path of one file denotes that file: read against the
      target folder, or as a full path when the file lies on another volume. */
  lemma IncludeResolves(scan: Scan, sourceRoot: Path, f: SourceFile, includePath: string)
    requires forall i :: 0 <= i < |sourceRoot| ==> PlainSegment(sourceRoot[i])
    requires AreEntryNames(f.chain) && IsEntryName(f.name)
    requires IncludeOf(scan, sourceRoot + f.chain, f.name) == Success(includePath)
    ensures Denotes(TargetLocation(scan), includePath, FileLocation(sourceRoot + f.chain, f.name))
  {
    var to := FileLocation(sourceRoot + f.chain, f.name);
    PlainBelow(sourceRoot, f.chain);
    CombineNonEmpty(PathText(sourceRoot + f.chain), f.name);
    MakeRelativePathRoundTrip(TargetLocation(scan), to);
  }

  lemma PlainBelow(root: Path, chain: seq<string>)
    requires forall i :: 0 <= i < |root| ==> PlainSegment(root[i])
    requires AreEntryNames(chain)
    ensures forall i :: 0 <= i < |root + chain| ==> PlainSegment((root + chain)[i])
  {
    forall j | 0 <= j < |root + chain|
      ensures PlainSegment((root + chain)[j])
    {
      if j >= |root| {
        assert (root + chain)[j] == chain[j - |root|];
      }
    }
  }

  /** Only direct children of the source folder are ignored: a top-level
      ignored directory is skipped with all it holds, while a directory below
      a kept one is mirrored and scanned whatever its name, and a file whose
      extension is not included is not linked. */
  lemma NestedDirectoryWalked(sourceRoot: Path, targetRoot: Path, top: string, hidden: seq<Entry>,
                              sub: string, inner: string, kept: string, dropped: string)
    requires forall i :: 0 <= i < |sourceRoot| ==> PlainSegment(sourceRoot[i])
    requires IsEntryName(top) && Ignored(RootIgnore, top) && WellFormed(hidden)
    requires IsEntryName(sub) && !Ignored(RootIgnore, sub) && IsEntryName(inner)
    requires IsEntryName(kept) && Included(CodeExtensions, kept)
    requires IsEntryName(dropped) && !Included(CodeExtensions, dropped)
    ensures var w := Mirror(sourceRoot, [Dir(top, hidden), Dir(sub, [Dir(inner, [File(kept)]), File(dropped)])],
                            targetRoot, {});
            && w.links.Success?
            && |w.links.value| == 1
            && w.links.value[0].link == JoinPath([sub, inner, kept])
            && w.dirs == {targetRoot + [sub], targetRoot + [sub, inner]}
  {
    var tree := [Dir(top, hidden), Dir(sub, [Dir(inner, [File(kept)]), File(dropped)])];
    NestedFacts(targetRoot, top, hidden, sub, inner, kept, dropped);
    SingleLink(sourceRoot, tree, targetRoot, SourceFile([sub, inner], kept));
    assert [sub, inner] + [kept] == [sub, inner, kept];
  }

  lemma NestedFacts(targetRoot: Path, top: string, hidden: seq<Entry>,
                    sub: string, inner: string, kept: string, dropped: string)
    requires IsEntryName(top) && Ignored(RootIgnore, top) && WellFormed(hidden)
    requires IsEntryName(sub) && !Ignored(RootIgnore, sub) && IsEntryName(inner)
    requires IsEntryName(kept) && Included(CodeExtensions, kept)
    requires IsEntryName(dropped) && !Included(CodeExtensions, dropped)
    ensures var tree := [Dir(top, hidden), Dir(sub, [Dir(inner, [File(kept)]), File(dropped)])];
            && WellFormed(tree) && Supported(tree, RootIgnore)
            && Collected(tree, [], RootIgnore, CodeExtensions) == [SourceFile([sub, inner], kept)]
            && Mirrored(tree, targetRoot, RootIgnore) == {targetRoot + [sub], targetRoot + [sub, inner]}
  {
    NestedWellFormed(top, hidden, sub, inner, kept, dropped);
    NestedSupported(top, hidden, sub, inner, kept, dropped);
    NestedCollected(top, hidden, sub, inner, kept, dropped);
    NestedMirrored(targetRoot, top, hidden, sub, inner, kept, dropped);
  }

  lemma NestedWellFormed(top: string, hidden: seq<Entry>, sub: string, inner: string, kept: string, dropped: string)
    requires IsEntryName(top) && WellFormed(hidden)
    requires IsEntryName(sub) && IsEntryName(inner) && IsEntryName(kept) && IsEntryName(dropped)
    ensures WellFormed([Dir(top, hidden), Dir(sub, [Dir(inner, [File(kept)]), File(dropped)])])
  {
    WellFormedPair(Dir(inner, [File(kept)]), File(dropped));
    WellFormedPair(Dir(top, hidden), Dir(sub, [Dir(inner, [File(kept)]), File(dropped)]));
    WellFormedSingle(File(kept));
  }

  lemma NestedSupported(top: string, hidden: seq<Entry>, sub: string, inner: string, kept: string, dropped: string)
    requires Ignored(RootIgnore, top) && !Ignored(RootIgnore, sub)
    ensures Supported([Dir(top, hidden), Dir(sub, [Dir(inner, [File(kept)]), File(dropped)])], RootIgnore)
  {
    SupportedPair(Dir(inner, [File(kept)]), File(dropped), {});
    SupportedPair(Dir(top, hidden), Dir(sub, [Dir(inner, [File(kept)]), File(dropped)]), RootIgnore);
    SupportedSingle(File(kept), {});
  }

  lemma NestedCollected(top: string, hidden: seq<Entry>, sub: string, inner: string, kept: string, dropped: string)
    requires Ignored(RootIgnore, top) && !Ignored(RootIgnore, sub)
    requires Included(CodeExtensions, kept) && !Included(CodeExtensions, dropped)
    ensures Collected([Dir(top, hidden), Dir(sub, [Dir(inner, [File(kept)]), File(dropped)])], [], RootIgnore,
                      CodeExtensions)
         == [SourceFile([sub, inner], kept)]
  {
    var ext := CodeExtensions;
    var inside := [Dir(inner, [File(kept)]), File(dropped)];
    CollectedPair(Dir(top, hidden), Dir(sub, inside), [], RootIgnore, ext);
    CollectedDir(top, hidden, [], RootIgnore, ext);
    CollectedDir(sub, inside, [], RootIgnore, ext);
    assert [] + [sub] == [sub];
    InsideCollected(sub, inner, kept, dropped);
  }

  lemma InsideCollected(sub: string, inner: string, kept: string, dropped: string)
    requires Included(CodeExtensions, kept) && !Included(CodeExtensions, dropped)
    ensures Collected([Dir(inner, [File(kept)]), File(dropped)], [sub], {}, CodeExtensions)
         == [SourceFile([sub, inner], kept)]
  {
    var ext := CodeExtensions;
    CollectedPair(Dir(inner, [File(kept)]), File(dropped), [sub], {}, ext);
    CollectedDir(inner, [File(kept)], [sub], {}, ext);
    KeptFileCollected(sub, inner, kept);
    assert CollectedEntry(File(dropped), [sub], {}, ext) == [];
  }

  lemma KeptFileCollected(sub: string, inner: string, kept: string)
    requires Included(CodeExtensions, kept)
    ensures Collected([File(kept)], [sub] + [inner], {}, CodeExtensions) == [SourceFile([sub, inner], kept)]
  {
    assert [sub] + [inner] == [sub, inner];
    CollectedSingle(File(kept), [sub, inner], {}, CodeExtensions);
  }

  lemma CollectedDir(n: string, children: seq<Entry>, chain: seq<string>, ignore: set<string>, extensions: set<string>)
    ensures Ignored(ignore, n) ==> CollectedEntry(Dir(n, children), chain, ignore, extensions) == []
    ensures !Ignored(ignore, n) ==>
              CollectedEntry(Dir(n, children), chain, ignore, extensions) == Collected(children, chain + [n], {}, extensions)
  {
  }

  lemma NestedMirrored(targetRoot: Path, top: string, hidden: seq<Entry>, sub: string, inner: string,
                       kept: string, dropped: string)
    requires Ignored(RootIgnore, top) && !Ignored(RootIgnore, sub)
    ensures Mirrored([Dir(top, hidden), Dir(sub, [Dir(inner, [File(kept)]), File(dropped)])], targetRoot, RootIgnore)
         == {targetRoot + [sub], targetRoot + [sub, inner]}
  {
    var inside := [Dir(inner, [File(kept)]), File(dropped)];
    var d := targetRoot + [sub];
    MirroredPair(Dir(top, hidden), Dir(sub, inside), targetRoot, RootIgnore);
    MirroredPair(Dir(inner, [File(kept)]), File(dropped), d, {});
    MirroredSingle(File(kept), d + [inner], {});
    assert d + [inner] == targetRoot + [sub, inner];
  }

  lemma WellFormedPair(a: Entry, b: Entry)
    ensures WellFormed([a, b]) == (WellFormedEntry(a) && WellFormedEntry(b))
  {
    assert [a, b][1..] == [b];
    WellFormedSingle(b);
  }

  lemma WellFormedSingle(a: Entry)
    ensures WellFormed([a]) == WellFormedEntry(a)
  {
    assert [a][1..] == [];
    assert WellFormed([]);
  }

  lemma SupportedPair(a: Entry, b: Entry, ignore: set<string>)
    ensures Supported([a, b], ignore) == (SupportedEntry(a, ignore) && SupportedEntry(b, ignore))
  {
    assert [a, b][1..] == [b];
    SupportedSingle(b, ignore);
  }

  lemma SupportedSingle(a: Entry, ignore: set<string>)
    ensures Supported([a], ignore) == SupportedEntry(a, ignore)
  {
    assert [a][1..] == [];
    assert Supported([], ignore);
  }

  lemma CollectedPair(a: Entry, b: Entry, chain: seq<string>, ignore: set<string>, extensions: set<string>)
    ensures Collected([a, b], chain, ignore, extensions)
         == CollectedEntry(a, chain, ignore, extensions) + CollectedEntry(b, chain, ignore, extensions)
  {
    assert [a, b][1..] == [b];
    CollectedSingle(b, chain, ignore, extensions);
  }

  lemma CollectedSingle(a: Entry, chain: seq<string>, ignore: set<string>, extensions: set<string>)
    ensures Collected([a], chain, ignore, extensions) == CollectedEntry(a, chain, ignore, extensions)
  {
    assert [a][1..] == [];
    assert CollectedEntry(a, chain, ignore, extensions) + [] == CollectedEntry(a, chain, ignore, extensions);
  }

  lemma MirroredPair(a: Entry, b: Entry, targetDir: Path, ignore: set<string>)
    ensures Mirrored([a, b], targetDir, ignore) == MirroredEntry(a, targetDir, ignore) + MirroredEntry(b, targetDir, ignore)
  {
    assert [a, b][1..] == [b];
    MirroredSingle(b, targetDir, ignore);
  }

  lemma MirroredSingle(a: Entry, targetDir: Path, ignore: set<string>)
    ensures Mirrored([a], targetDir, ignore) == MirroredEntry(a, targetDir, ignore)
  {
    assert [a][1..] == [];
  }

  lemma SingleLink(sourceRoot: Path, entries: seq<Entry>, targetRoot: Path, f: SourceFile)
    requires WellFormed(entries) && Supported(entries, RootIgnore)
    requires forall i :: 0 <= i < |sourceRoot| ==> PlainSegment(sourceRoot[i])
    requires Collected(entries, [], RootIgnore, CodeExtensions) == [f]
    ensures var w := Mirror(sourceRoot, entries, targetRoot, {});
            && w.links.Success?
            && |w.links.value| == 1
            && w.links.value[0].link == JoinPath(f.chain + [f.name])
            && w.dirs == Mirrored(entries, targetRoot, RootIgnore)
  {
    MirrorLinks(sourceRoot, entries, targetRoot, {});
    assert {} + Mirrored(entries, targetRoot, RootIgnore) == Mirrored(entries, targetRoot, RootIgnore);
  }

  /** The case above on `bin/a.cs`, `sub/bin/b.cs` and `sub/notes.txt`: only
      `sub/bin/b.cs` is linked, as `sub\\bin\\b.cs`. */
  lemma IgnoreScopeExample(sourceRoot: Path, targetRoot: Path)
    requires forall i :: 0 <= i < |sourceRoot| ==> PlainSegment(sourceRoot[i])
    ensures var w := Mirror(sourceRoot, [Dir("bin", [File("a.cs")]),
                                         Dir("sub", [Dir("bin", [File("b.cs")]), File("notes.txt")])],
                            targetRoot, {});
            && w.links.Success?
            && |w.links.value| == 1
            && w.links.value[0].link == "sub\\bin\\b.cs"
            && w.dirs == {targetRoot + ["sub"], targetRoot + ["sub", "bin"]}
  {
    ExampleNames();
    ExampleEntryNames();
    WellFormedSingle(File("a.cs"));
    NestedDirectoryWalked(sourceRoot, targetRoot, "bin", [File("a.cs")], "sub", "bin", "b.cs", "notes.txt");
    ExampleAlias();
  }

  lemma ExampleEntryNames()
    ensures IsEntryName("bin") && IsEntryName("sub") && IsEntryName("a.cs")
    ensures IsEntryName("b.cs") && IsEntryName("notes.txt")
  {
    LowerCaseName("bin");
    LowerCaseName("sub");
    LowerCaseName("a.cs");
    LowerCaseName("b.cs");
    LowerCaseName("notes.txt");
  }

  /** A name of lower-case letters and dots that starts with a letter. */
  lemma LowerCaseName(n: string)
    requires |n| > 0 && 'a' <= n[0] <= 'z'
    requires forall i :: 0 <= i < |n| ==> 'a' <= n[i] <= 'z' || n[i] == '.'
    ensures IsEntryName(n)
  {
  }

  lemma ExampleNames()
    ensures Lower("bin") == "bin" && Lower("sub") == "sub"
    ensures Included(CodeExtensions, "b.cs") && !Included(CodeExtensions, "notes.txt")
  {
    assert Lower("bin") == "bin";
    assert Lower("sub") == "sub";
    CodeFileIncluded();
    TextFileExcluded();
  }

  lemma CodeFileIncluded()
    ensures Included(CodeExtensions, "b.cs")
  {
    assert ExtensionDot("b.cs", 2) == 1;
    assert ExtensionDot("b.cs", 4) == 1;
    assert Extension("b.cs") == ".cs";
    assert Lower(".cs") == ".cs";
  }

  lemma TextFileExcluded()
    ensures !Included(CodeExtensions, "notes.txt")
  {
    assert ExtensionDot("notes.txt", 6) == 5;
    assert ExtensionDot("notes.txt", 8) == 5;
    assert ExtensionDot("notes.txt", 9) == 5;
    assert Extension("notes.txt") == ".txt";
    assert Lower(".txt")[1] == 't';
  }

  lemma ExampleAlias()
    ensures JoinPath(["sub", "bin", "b.cs"]) == "sub\\bin\\b.cs"
  {
    var sep := DirectorySeparator;
    assert ["sub", "bin", "b.cs"][1..] == ["bin", "b.cs"];
    assert ["bin", "b.cs"][1..] == ["b.cs"];
    assert Join(["b.cs"], sep) == "b.cs";
    assert Join(["bin", "b.cs"], sep) == "bin" + [sep] + "b.cs";
    assert Join(["sub", "bin", "b.cs"], sep) == "sub" + [sep] + ("bin" + [sep] + "b.cs");
  }
}
