/** The synchronisation pass of `Main` once the target project exists: mirror
    the source tree, then patch the target project with the links. */
module Pipeline {
  import opened Wrappers
  import opened PathOps
  import opened RelativePath
  import opened TreeMirror
  import opened Manifest

  /** The run's failure: a fault escaping `AlignTree` or an unusable project. */
  datatype RunError = TreeFault(fault: Fault) | PatchFault(error: PatchError)

  /** What the pass acts on: the target directories and the target project document. */
  datatype State = State(dirs: set<Path>, project: Document)

  /** The state after the pass, and its failure if any. */
  datatype Outcome = Outcome(state: State, error: Option<RunError>)

  /** `AlignTree` followed by `PatchTargetProject`. A fault during the walk
      leaves the directories created so far and the document untouched; the
      document is rewritten, with the links the walk collected, only when both
      steps succeed. */
  function AlignAndPatch(sourceRoot: Path, entries: seq<Entry>, targetRoot: Path, s: State): (o: Outcome)
    ensures s.dirs <= o.state.dirs
    ensures o.state.dirs == Mirror(sourceRoot, entries, targetRoot, s.dirs).dirs
    ensures o.error.Some? ==> o.state.project == s.project
    ensures var w := Mirror(sourceRoot, entries, targetRoot, s.dirs);
            o.error.None? <==> w.links.Success? && Patch(s.project, w.links.value).Success?
    ensures var w := Mirror(sourceRoot, entries, targetRoot, s.dirs);
            o.error.None? ==> w.links.Success? && Patch(s.project, w.links.value) == Success(o.state.project)
  {
    var w := Mirror(sourceRoot, entries, targetRoot, s.dirs);
    match w.links
    case Failure(f) => Outcome(State(w.dirs, s.project), Some(TreeFault(f)))
    case Success(links) =>
      match Patch(s.project, links) {
        case Failure(e) => Outcome(State(w.dirs, s.project), Some(PatchFault(e)))
        case Success(project) => Outcome(State(w.dirs, project), None)
      }
  }

  /** Running the pass again on what the last run left changes nothing, and
      reports the same outcome: directories are not created twice and the
      owned group is rebuilt to the same content. */
  lemma AlignAndPatchRerun(sourceRoot: Path, entries: seq<Entry>, targetRoot: Path, s: State)
    ensures var o := AlignAndPatch(sourceRoot, entries, targetRoot, s);
            AlignAndPatch(sourceRoot, entries, targetRoot, o.state) == o
  {
    var scan := Scan(targetRoot, CodeExtensions);
    AlignTreeIdempotent(scan, entries, sourceRoot, targetRoot, "", RootIgnore, s.dirs);
    var w := Mirror(sourceRoot, entries, targetRoot, s.dirs);
    if w.links.Success? && Patch(s.project, w.links.value).Success? {
      PatchIdempotent(s.project, w.links.value);
    }
  }

  /** The group at `i` of `doc` lists `files`: one `Compile` item per file, in
      order, whose include path denotes the file and whose link is the file's
      path below the source folder, followed by the assembly-info item. */
  predicate ListsFiles(doc: Document, i: nat, sourceRoot: Path, targetRoot: Path, files: seq<SourceFile>) {
    && i < |doc.root|
    && |doc.root[i].items| == |files| + 1
    && (forall k :: 0 <= k < |files| ==>
          && doc.root[i].items[k].Compile?
          && doc.root[i].items[k].link == Some(JoinPath(files[k].chain + [files[k].name]))
          && Denotes(TargetLocation(Scan(targetRoot, CodeExtensions)), doc.root[i].items[k].includePath,
                     FileLocation(sourceRoot + files[k].chain, files[k].name)))
    && doc.root[i].items[|files|] == AssemblyInfoItem
  }

  /** What a run does to the project: it succeeds exactly when the tree holds
      no unsupported entry and the project has a usable item group; that group
      then lists every collected `.cs` file and the assembly-info file, and
      every other element of the project is left as it was. */
  lemma AlignAndPatchContents(sourceRoot: Path, entries: seq<Entry>, targetRoot: Path, s: State)
    requires WellFormed(entries)
    requires forall i :: 0 <= i < |sourceRoot| ==> PlainSegment(sourceRoot[i])
    ensures var o := AlignAndPatch(sourceRoot, entries, targetRoot, s);
            var files := Collected(entries, [], RootIgnore, CodeExtensions);
            && (o.error.None? <==> Supported(entries, RootIgnore) && SelectGroup(s.project).Some?)
            && (o.error.None? ==>
                  var i := SelectGroup(s.project).value;
                  && ListsFiles(o.state.project, i, sourceRoot, targetRoot, files)
                  && |o.state.project.root| == |s.project.root|
                  && forall j :: 0 <= j < |s.project.root| && j != i ==> o.state.project.root[j] == s.project.root[j])
  {
    var o := AlignAndPatch(sourceRoot, entries, targetRoot, s);
    var w := Mirror(sourceRoot, entries, targetRoot, s.dirs);
    var files := Collected(entries, [], RootIgnore, CodeExtensions);
    MirrorLinks(sourceRoot, entries, targetRoot, s.dirs);
    if o.error.None? {
      var links := w.links.value;
      PatchReplacesSelectedGroup(s.project, links);
      var i := SelectGroup(s.project).value;
      var items := o.state.project.root[i].items;
      forall k | 0 <= k < |files|
        ensures && items[k].Compile?
                && items[k].link == Some(JoinPath(files[k].chain + [files[k].name]))
                && Denotes(TargetLocation(Scan(targetRoot, CodeExtensions)), items[k].includePath,
                           FileLocation(sourceRoot + files[k].chain, files[k].name))
      {
        assert items[k] == Compile(links[k].includePath, Some(links[k].link));
      }
    }
  }
}
