/** The pure part of `ValidateSource`: the zero/one/many split over the
    `*.xproj` files found in the source folder, and the names derived for
    the target project. */
module SourceProject {
  import opened Wrappers
  import opened PathOps
  import opened Arguments

  /** The exceptions `ValidateSource` throws. `NullSourcePath` is the
      `ArgumentNullException` of `new DirectoryInfo(null)`, reached when the
      arguments named a profile but no project path. */
  datatype SourceError = NullSourcePath | SourceMissing | NoProject | ManyProjects(count: nat)

  /** `_sourceName`, `_targetName`, `_targetFolderPath` and `_targetProjectFileName`. */
  datatype TargetNames = TargetNames(sourceName: string, targetName: string, targetFolder: string, projectFile: string)

  /** The target project name: the source name, an underscore, and the
      profile's folder suffix. */
  function TargetName(sourceName: string, template: Template): string {
    sourceName + "_" + template.folderSuffix
  }

  /** The target folder, a child of the working directory, and the project
      file in it. */
  function Layout(current: string, sourceName: string, template: Template): TargetNames {
    var target := TargetName(sourceName, template);
    var folder := Combine(current, target);
    TargetNames(sourceName, target, folder, Combine(folder, target + ".csproj"))
  }

  /** `ValidateSource` on the parsed source path (empty when none was given),
      given whether that folder exists and the names of the `*.xproj` files
      directly inside it. */
  function ValidateSource(current: string, source: string, sourceExists: bool, projects: seq<string>, template: Template)
    : (r: Result<TargetNames, SourceError>)
    ensures r.Success? <==> source != "" && sourceExists && |projects| == 1
    ensures source == "" ==> r == Failure(NullSourcePath)
    ensures source != "" && !sourceExists ==> r == Failure(SourceMissing)
    ensures source != "" && sourceExists && |projects| == 0 ==> r == Failure(NoProject)
    ensures source != "" && sourceExists && |projects| > 1 ==> r == Failure(ManyProjects(|projects|))
    ensures r.Success? ==> r.value.sourceName == FileNameWithoutExtension(projects[0])
    ensures r.Success? ==> r.value.targetName == TargetName(r.value.sourceName, template)
    ensures r.Success? ==> r.value.targetFolder == Combine(current, r.value.targetName)
    ensures r.Success? ==> r.value.projectFile == Combine(r.value.targetFolder, r.value.targetName + ".csproj")
  {
    if source == "" then Failure(NullSourcePath)
    else if !sourceExists then Failure(SourceMissing)
    else if |projects| == 0 then Failure(NoProject)
    else if |projects| > 1 then Failure(ManyProjects(|projects|))
    else Success(Layout(current, FileNameWithoutExtension(projects[0]), template))
  }

  /** Distinct profiles never share a target project name. */
  lemma TargetNamesDistinct(sourceName: string, t1: Template, t2: Template)
    requires t1 in Templates && t2 in Templates && t1 != t2
    ensures TargetName(sourceName, t1) != TargetName(sourceName, t2)
  {
    var n := |sourceName| + 1;
    assert TargetName(sourceName, t1)[n..] == t1.folderSuffix;
    assert TargetName(sourceName, t2)[n..] == t2.folderSuffix;
  }

  /** The source name can be read back from the target name. */
  lemma TargetNameInjective(s1: string, s2: string, template: Template)
    requires TargetName(s1, template) == TargetName(s2, template)
    ensures s1 == s2
  {
    var t := TargetName(s1, template);
    assert |s1| == |s2|;
    assert s1 == t[..|s1|] == s2;
  }

  lemma {:induction false} ExtensionDotOfSuffix(p: string, ext: string, i: nat)
    requires |ext| >= 2 && ext[0] == '.'
    requires forall j :: 1 <= j < |ext| ==> ext[j] != '.' && !IsSeparator(ext[j]) && ext[j] != VolumeSeparator
    requires |p| >= |ext| && p[|p| - |ext|..] == ext
    requires |p| - |ext| < i <= |p|
    ensures ExtensionDot(p, i) == |p| - |ext|
    decreases i
  {
    var d := |p| - |ext|;
    assert p[d] == ext[0];
    if i - 1 > d {
      assert p[i - 1] == ext[i - 1 - d];
      ExtensionDotOfSuffix(p, ext, i - 1);
    }
  }

  /** A path ending in a dotted suffix without further dots or separators has
      that suffix as its extension. */
  lemma ExtensionOfSuffix(p: string, ext: string)
    requires |ext| >= 2 && ext[0] == '.'
    requires forall j :: 1 <= j < |ext| ==> ext[j] != '.' && !IsSeparator(ext[j]) && ext[j] != VolumeSeparator
    requires |p| >= |ext| && p[|p| - |ext|..] == ext
    ensures Extension(p) == ext
  {
    ExtensionDotOfSuffix(p, ext, |p|);
  }

  /** Any path ending in `.csproj` has that extension. */
  lemma CsprojExtension(p: string)
    requires |p| >= 7 && p[|p| - 7..] == ".csproj"
    ensures Extension(p) == ".csproj"
  {
    var ext := ".csproj";
    assert forall j :: 1 <= j < |ext| ==> ext[j] in "csproj";
    ExtensionOfSuffix(p, ext);
  }

  /** The target project file is a `.csproj` file. */
  lemma ProjectFileIsCsproj(current: string, sourceName: string, template: Template)
    ensures Extension(Layout(current, sourceName, template).projectFile) == ".csproj"
  {
    var names := Layout(current, sourceName, template);
    CombineCsproj(names.targetFolder, names.targetName);
  }

  lemma CombineCsproj(folder: string, name: string)
    ensures Extension(Combine(folder, name + ".csproj")) == ".csproj"
  {
    var file := name + ".csproj";
    var p := Combine(folder, file);
    assert p[|p| - 7..] == file[|file| - 7..] by {
      assert p[|p| - |file|..] == file;
    }
    assert file[|file| - 7..] == ".csproj";
    CsprojExtension(p);
  }

  /** The source name is the project file name without its `.xproj` extension. */
  lemma SourceNameOfProject(project: string)
    requires IsEntryName(project) && |project| >= 6 && project[|project| - 6..] == ".xproj"
    ensures FileNameWithoutExtension(project) + ".xproj" == project
  {
    ExtensionOfSuffix(project, ".xproj");
    StemAndExtension(project);
  }
}
