# MakePortable, modelled in Dafny

MakePortable turns a .NET Core project (`*.xproj`) into a classic MSBuild
project for a chosen profile: PCL, .NET 4.5 or .NET 4.6. The new project sits
in a folder named `<source>_<suffix>` inside the working directory. The tool does not copy source
files. It mirrors the source folder's directory structure under the target
folder and rewrites one `ItemGroup` of the target project so that every `.cs`
file outside the source folder's top-level `properties`, `bin` and `obj`
folders is *linked*: a `Compile` item whose `Include` is the path from the target
folder back to the source file and whose `Link` is the file's path below the
source folder.

The model covers the pure logic of `MakePortable/Program.cs`. All of it is
immutable datatypes and functions.

- `Arguments`: `ParseInputArgs` and the `_templates` table. The argument loop
  is a fold (`Gather`) that stops at the first failure. A parse that names no
  profile gets the first declared one, `PCL`. A path argument holding a
  character `Path.Combine` rejects makes it throw; the model returns that
  exception as its own error, `IllegalCharacters`.
- `SourceProject`: the pure part of `ValidateSource`. This is the
  zero/one/many split over the `*.xproj` files found, and the target names
  derived from the source name and the profile's folder suffix. Naming a
  profile without a project path gets past `ParseInputArgs`. Then
  `new DirectoryInfo(null)` throws, and the model gives that case its own
  error, `NullSourcePath`.
- `RelativePath`: `MakeRelativePath` over parsed locations: a scheme, directory
  segments and a final segment. The first directory segment of a file
  location is its volume (`C:`). The reference is the path difference of
  `Uri.MakeRelativeUri`, taken segment by segment. For two files on
  different volumes it is the full path of the target. Otherwise it is
  relative, and it is proved to lead back to the target when read against
  the start directory.
- `TreeMirror`: `AlignTree`. The source folder is a tree of entries: files,
  directories, and anything else. The target side is the set of directories
  that exist. The walk returns the final directory set together with the
  links, or the exception that ended it. Directories created before an
  exception stay created, as they do on disk.
- `Manifest`: `PatchTargetProject` on the project document. The document is
  reduced to the root's child elements; each item group holds `Compile` items
  and other elements. Where the original dereferences null because no item
  group qualifies, the model returns an explicit error, `NoUsableItemGroup`.
- `Pipeline`: the synchronisation step of `Main`, which is `AlignTree` followed
  by `PatchTargetProject`. Running it a second time on what the first run left
  changes nothing.
- Support modules:
  - `Text`: ASCII invariant-culture case mapping, plus join and split on a
    character.
  - `PathOps`: `Path.Combine`, `Path.GetExtension` and
    `Path.GetFileNameWithoutExtension` with the Windows separators.
  - `Wrappers`: `Option` and `Result`.

## Model

| member | source | states |
|---|---|---|
| TreeMirror.AlignTree | MakePortable/Program.cs:257-318 | The walk never removes a target directory. Every directory it adds lies strictly below the target directory it was started in. |
| TreeMirror.AlignTreeMatchesCollected | MakePortable/Program.cs:267-317 | The walk fails exactly when it reaches an entry that is neither file nor directory outside an ignored directory. Otherwise it yields one link per included file, in depth-first enumeration order. Each include path is the file's path relative to the target folder, and each alias is its directory chain joined with its name. |
| TreeMirror.MirrorLinks | MakePortable/Program.cs:42-49 | `AlignTree` as `Main` calls it (ignore `properties`, `bin`, `obj`; include `.cs`; empty alias prefix). It succeeds exactly when no unsupported entry is reached. On success the target directories are the old ones plus one mirror per non-ignored directory, paths being compared by exact spelling. Each link's include path denotes the source file: read against the target folder, or as the full path when the source lies on another volume. Each alias is the file's path below the source folder. |
| TreeMirror.IgnoredIgnoresCase | MakePortable/Program.cs:274-277 | Directory names that differ only in the case of their letters are ignored alike. |
| TreeMirror.FileYieldsLinkIffIncluded | MakePortable/Program.cs:296-312 | A file yields exactly one link when its lower-cased extension is in the include set, and none otherwise. It creates no directory, and the link's alias is the alias prefix combined with the file name. |
| TreeMirror.FileLink | MakePortable/Program.cs:305-310 | For an entry name below a chain of entry names, the include path can always be computed, and the alias built by repeated `Path.Combine` is the chain and the name joined with `\`. |
| TreeMirror.SpecialAborts | MakePortable/Program.cs:313-316 | An entry that is neither file nor directory aborts the walk with `NotSupportedException`. The walk keeps the directories created by the entries before it and visits nothing after it. |
| TreeMirror.IgnoredDirSkipped | MakePortable/Program.cs:271-277 | A directory whose lower-cased name is in the ignore set is neither mirrored nor scanned, wherever it sits among its siblings. |
| TreeMirror.NestedDirectoryWalked | MakePortable/Program.cs:287-294 | The ignore set applies to direct children of the source folder only. An ignored top-level directory is skipped with everything in it. A directory below a kept one is mirrored and scanned whatever its name, and a file with another extension is not linked. |
| TreeMirror.IgnoreScopeExample | MakePortable/Program.cs:271-294 | On `bin/a.cs`, `sub/bin/b.cs` and `sub/notes.txt`, only `sub\bin\b.cs` is linked. The directories created are `sub` and `sub\bin`. |
| TreeMirror.AlignTreeDirs | MakePortable/Program.cs:279-284 | The walk creates only mirrors of non-ignored source directories. On success it creates all of them. |
| TreeMirror.AlignTreeShift | MakePortable/Program.cs:280-284 | Starting with extra directories already present adds exactly those directories to the outcome and changes no link or fault. |
| TreeMirror.AlignTreeIdempotent | MakePortable/Program.cs:279-284 | Running the walk again on the directories the first run left changes nothing: the same directories and the same links or fault. |
| TreeMirror.AlignTreeConcat | MakePortable/Program.cs:267-317 | Depth-first order: walking `a + b` walks `a`, then walks `b` from the directories `a` left, and concatenates the links. A fault in `a` ends the walk before `b`. |
| PathOps.Combine | MakePortable/Program.cs:291 | `Path.Combine`: an empty second part gives the first. An empty first part or a rooted second part gives the second. Otherwise the result is the first part, one directory separator unless the first part already ends in a directory or volume separator, and the second part. |
| PathOps.CombineExtendsChain | MakePortable/Program.cs:291 | Combining the joined directory chain with one more name is joining the chain extended by that name. |
| PathOps.Extension | MakePortable/Program.cs:299 | `Path.GetExtension`: the result is empty or a dotted suffix of the name with no further dot. |
| PathOps.StemAndExtension | MakePortable/Program.cs:159 | For an entry name, the name without extension followed by the extension is the name. The exception is a name ending in a dot: its extension is empty while its stem drops the dot. |
| RelativePath.MakeRelativePath | MakePortable/Program.cs:387-405 | An empty `fromPath` gives `ArgumentNullException("fromPath")` and otherwise an empty `toPath` gives `ArgumentNullException("toPath")`. Different schemes give `toPath` unchanged. The same scheme gives a reference, with no `/` left when the scheme is `file`. |
| RelativePath.CommonPrefixLength | MakePortable/Program.cs:397 | The length of the longest common leading run of two segment lists. |
| RelativePath.MakeRelativePathRoundTrip | MakePortable/Program.cs:397-405 | The reference denotes its target. For two files on different volumes, split at `\` it is exactly the target's volume, directories and final segment. Otherwise, read against the start directory with the output separator, it names exactly the target's directories and final segment. |
| RelativePath.MakeRelativePathExamples | MakePortable/Program.cs:387-405 | `C:\a\b\` to `C:\a\b\c\d.txt` gives `c\d.txt`, and `C:\a\b\` to `C:\x\y.txt` gives `..\..\x\y.txt`. `/a/b/` to `/x/y.txt` gives `../../x/y.txt` on a web scheme. `C:\w\T\` to `D:\p\x.cs` gives `D:\p\x.cs`. A scheme mismatch returns `toPath`. |
| Manifest.FirstQualifying | MakePortable/Program.cs:334-337 | The first position at or after the start whose element qualifies under a rule, or none when no element there qualifies. |
| Manifest.SelectGroupChoice | MakePortable/Program.cs:333-345 | The selected group is the first item group holding a `Compile` item if any exists. Otherwise it is the first item group without child elements, and otherwise there is none. |
| Manifest.Patch | MakePortable/Program.cs:325-374 | The patch fails exactly when no item group qualifies under either rule. Otherwise the document keeps its number of root elements. |
| Manifest.PatchReplacesSelectedGroup | MakePortable/Program.cs:347-370 | After a successful patch, the selected group has its tag and no attributes. It holds exactly N `Compile` items with each link's include and alias, in order, followed by the `Properties\AssemblyInfo.cs` item. Every other element is unchanged. |
| Manifest.PatchIdempotent | MakePortable/Program.cs:347-370 | Patching the patched document with the same links gives the same document. |
| Manifest.EmptyGroupPopulated | MakePortable/Program.cs:339-370 | A project whose only item group is empty gets that group filled with the link items and the assembly-info item. |
| Arguments.Lookup | MakePortable/Program.cs:14-19 | `_templates.TryGetValue` finds the declared profile whose key matches exactly, or reports that no key matches. |
| Arguments.SwitchIgnoresCase | MakePortable/Program.cs:79-81 | Two switches name the same key exactly when their texts after `--` differ only in the case of letters, and such switches select the same profile. |
| Arguments.ParseInputArgs | MakePortable/Program.cs:69-119 | An empty argument list fails with "Missing arguments.". A successful parse always carries a declared profile. |
| Arguments.GatherOutcome | MakePortable/Program.cs:75-107 | The loop succeeds exactly when every switch is known, every positional argument is free of characters `Path.Combine` rejects and, counting what was gathered before, at most one switch and one positional argument occur. It then holds that switch's profile and the positional argument combined with the working directory. |
| Arguments.ParseInputArgsOutcome | MakePortable/Program.cs:69-119 | Parsing succeeds exactly on a non-empty list with only known switches, at most one switch and at most one positional argument, which holds no character `Path.Combine` rejects. The profile is the switch's, or `PCL` when there is none. The source path is the positional argument combined with the working directory, or empty when there is none. |
| Arguments.ParseStopsAtFailure | MakePortable/Program.cs:106 | A failed parse keeps its failure reason whatever arguments follow. |
| Arguments.ParseInputArgsExamples | MakePortable/Program.cs:77-104 | Concrete reasons on small lists. A second switch is ambiguous whether it differs or repeats in another case, an unknown switch is unsupported, a second path is bad input, `a|b` makes `Path.Combine` throw, and `--Net46 Lib` selects .NET 4.6 with `C:\work\Lib`. |
| SourceProject.ValidateSource | MakePortable/Program.cs:142-171 | A missing path, a missing folder, no project and several projects each give their own error, the last carrying the count. The result is a success exactly when the folder exists and holds one project. The source name is then that project's file name without extension. The target name is the source name, `_` and the folder suffix. The target folder is that name inside the working directory, and the project file is that name plus `.csproj` inside the target folder. |
| SourceProject.TargetNamesDistinct | MakePortable/Program.cs:168 | Two different profiles never give the same source the same target name. |
| SourceProject.TargetNameInjective | MakePortable/Program.cs:168 | The source name can be read back from the target name. |
| SourceProject.ProjectFileIsCsproj | MakePortable/Program.cs:170 | The target project file has the extension `.csproj`. |
| SourceProject.SourceNameOfProject | MakePortable/Program.cs:159 | For a project file named `X.xproj`, the source name is `X`. |
| Pipeline.AlignAndPatch | MakePortable/Program.cs:41-53 | No target directory is removed, and the directories are those the walk leaves. A failed run leaves the project document as it was. The run succeeds exactly when the walk succeeds and the patch with the links the walk collected succeeds, and the document is then that patch's result. |
| Pipeline.AlignAndPatchContents | MakePortable/Program.cs:41-53 | A run succeeds exactly when the tree holds no unsupported entry outside ignored folders and the project has a usable item group. That group then lists one `Compile` item per collected `.cs` file, in order, each denoting its file with the file's path below the source folder as its link. The `Properties\AssemblyInfo.cs` item follows, and every other element is unchanged. |
| Pipeline.AlignAndPatchRerun | MakePortable/Program.cs:41-53 | Running the synchronisation again on the state the last run left reproduces that state and outcome. |
| Text.Lower | MakePortable/Program.cs:274 | `ToLowerInvariant` keeps the length and leaves no upper-case ASCII letter. |
| Text.LowerLetters | MakePortable/Program.cs:274 | Each upper-case ASCII letter becomes its lower-case partner, and every other character is kept. |
| Text.LowerIgnoresCase | MakePortable/Program.cs:274 | Two strings lower-case to the same string exactly when they differ only in the case of ASCII letters. |
| Text.Upper | MakePortable/Program.cs:79 | `ToUpperInvariant` keeps the length and leaves no lower-case ASCII letter. |
| Text.UpperLetters | MakePortable/Program.cs:79 | Each lower-case ASCII letter becomes its upper-case partner, and every other character is kept. |
| Text.UpperIgnoresCase | MakePortable/Program.cs:79 | Two strings upper-case to the same string exactly when they differ only in the case of ASCII letters. |

## Left out

- `System.Uri` parsing: a location arrives already split into scheme, directory segments and final segment. Host and authority comparison (UNC shares included), percent-escaping, `UnescapeDataString` and `Uri`'s case-insensitive comparison of file paths are not modelled. Nor is the `./` that `MakeRelativeUri` puts before a relative reference whose first segment holds a colon; entry names cannot hold one.
- File locations are DOS paths: the first directory segment is the drive (`C:`), as `DirectoryInfo.FullName` gives it on Windows, and two file locations lie on different volumes when their first segments differ. A rootless file location such as `/a/b/` is outside the model: `new Uri` rejects it on Windows, and the reference the model computes for it is not what any platform returns.
- TreeMirror.AlignTree: the target directories are a set of paths compared by exact spelling, whereas `DirectoryInfo.Exists` on Windows ignores case. When a target directory already exists under a spelling that differs from the source directory's only in case, the original creates nothing, while the model adds the source's spelling to the set. The links do not depend on the target directories, so only the directory set is affected.
- The source tree is taken to be disjoint from the target folder: the entry tree is given up front and never contains the directories the walk creates. The target folder is a child of the working directory. So running the tool inside the project folder (`MakePortable .`) puts the target inside the source. There the original enumerates the folder it is filling, recurses into the copy it has just created without end, and links the generated `Properties\AssemblyInfo.cs`; the model does not capture this.
- I/O failures while enumerating the source folder or creating target directories are not modelled.
- RelativePath.MakeRelativePathRoundTrip: stated only for targets whose directory names are plain (no separator, not `.` or `..`), because `Uri` would normalise other segments before comparing.
- TreeMirror.MirrorLinks: requires entry names the file system can produce and a source root of plain segments, the same restriction as the round trip it relies on.
- Arguments.ParseInputArgsOutcome: requires a non-empty working directory free of characters `Path.Combine` rejects, which `Environment.CurrentDirectory` always is.
- The characters `Path.Combine` rejects are those of .NET Framework (`"`, `<`, `>`, `|` and control characters); the model applies this check only to the `Path.Combine` of the path argument in `ParseInputArgs`, since every other combined part comes from the file system or from constants.
- Case mapping is ASCII only; invariant-culture mapping of other characters is not modelled.
- Separators are the Windows ones (`\`, `/`, `:`), matching the fixed `Properties\AssemblyInfo.cs` entry the tool writes.
- `EnsureTargetProject` is not modelled: it copies embedded resource templates, calls `Guid.NewGuid` and `DateTime.Now`, and writes files.
- `ValidateSource`'s file-system queries (whether the folder exists, the `*.xproj` search) are parameters.
- Console output, the usage text and `Console.ReadKey` in `Main` and `ParseInputArgs` are not modelled. The failure reason is returned instead of printed.
- `XDocument.Load`/`Save`, XML namespaces, text and comment nodes and attribute order: the document is the root's child elements, each with tag, attributes and child items.
- File-system enumeration order is the order of the entry sequence; nothing is sorted.
- `_templates.Values.First()` is taken as the first declared template, `PCL`, since the three entries are inserted in that order into a dictionary that is never modified.
- `String.StartsWith("--")` is culture-sensitive in .NET; the model compares the first two characters exactly.
