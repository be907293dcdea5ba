/** `MakeRelativePath`: the relative reference from a directory location to
    another location, computed the way `Uri.MakeRelativeUri` does on path
    segments, plus the reading-back (`Resolve`) it is meant to invert. */
module RelativePath {
  import opened Wrappers
  import opened Text
  import opened PathOps

  /** A location as `System.Uri` parses it: the text the caller passed, its
      scheme, the directory segments (each followed by `/` in the URI path) and
      the final segment after the last `/` (empty for a directory). A file
      location is a DOS path, so its first directory segment is its drive. */
  datatype Location = Location(text: string, scheme: string, dirs: seq<string>, leaf: string)

  /** `ArgumentNullException(parameter)`. */
  datatype PathError = ArgumentNull(parameter: string)

  /** Separator of the URI path that `MakeRelativeUri` returns. */
  const UriSeparator: char := '/'

  predicate IsFileScheme(scheme: string) {
    Lower(scheme) == "file"
  }

  /** The separator of the text `MakeRelativePath` returns for `scheme`. */
  function OutputSeparator(scheme: string): char {
    if IsFileScheme(scheme) then DirectorySeparator else UriSeparator
  }

  /** Length of the longest common leading run of `a` and `b`. */
  function CommonPrefixLength(a: seq<string>, b: seq<string>): (k: nat)
    ensures k <= |a| && k <= |b|
    ensures a[..k] == b[..k]
    ensures k < |a| && k < |b| ==> a[k] != b[k]
    decreases |a|
  {
    if |a| == 0 || |b| == 0 || a[0] != b[0] then 0
    else
      var k := 1 + CommonPrefixLength(a[1..], b[1..]);
      assert a[..k] == [a[0]] + a[1..][..k - 1];
      assert b[..k] == [b[0]] + b[1..][..k - 1];
      k
  }

  /** `n` parent-directory steps. */
  function Ups(n: nat): (r: seq<string>)
    ensures |r| == n
    ensures forall i :: 0 <= i < n ==> r[i] == ".."
  {
    if n == 0 then [] else [".."] + Ups(n - 1)
  }

  /** Both segment lists start, and start differently. */
  predicate Apart(a: seq<string>, b: seq<string>) {
    |a| > 0 && |b| > 0 && a[0] != b[0]
  }

  /** Two file locations on different volumes. The first directory segment of
      a file location is its volume (`C:`), so its first character already
      differs, and the URI path difference then shares nothing. */
  predicate OtherVolume(from: Location, to: Location) {
    IsFileScheme(to.scheme) && Apart(from.dirs, to.dirs)
  }

  /** Segments of the relative reference between two same-scheme locations:
      nothing when they coincide, the whole path of `to` when it lies on
      another volume, `./` when `to` is the directory `from` sits in, otherwise
      one `..` per directory of `from` past the common directory prefix
      followed by the rest of `to`. */
  function RelativeSegments(from: Location, to: Location): seq<string> {
    var k := CommonPrefixLength(from.dirs, to.dirs);
    var rest := to.dirs[k..] + [to.leaf];
    if from.dirs == to.dirs && from.leaf == to.leaf then []
    else if OtherVolume(from, to) then to.dirs + [to.leaf]
    else if k == |from.dirs| && rest == [""] then [".", ""]
    else Ups(|from.dirs| - k) + rest
  }

  /** `MakeRelativePath(fromPath, toPath)`: empty arguments are rejected, a
      scheme mismatch hands `toPath` back unchanged, and for the same scheme a
      relative reference is produced, with file-scheme separators switched to
      the directory separator. */
  function MakeRelativePath(from: Location, to: Location): (r: Result<string, PathError>)
    ensures from.text == "" <==> r == Failure(ArgumentNull("fromPath"))
    ensures from.text != "" && to.text == "" <==> r == Failure(ArgumentNull("toPath"))
    ensures from.text != "" && to.text != "" && from.scheme != to.scheme ==> r == Success(to.text)
    ensures from.text != "" && to.text != "" && from.scheme == to.scheme ==>
              r.Success? && (IsFileScheme(to.scheme) ==> UriSeparator !in r.value)
  {
    if from.text == "" then Failure(ArgumentNull("fromPath"))
    else if to.text == "" then Failure(ArgumentNull("toPath"))
    else if from.scheme != to.scheme then Success(to.text)
    else
      var relative := Join(RelativeSegments(from, to), UriSeparator);
      if IsFileScheme(to.scheme) then Success(ReplaceChar(relative, AltDirectorySeparator, DirectorySeparator))
      else Success(relative)
  }

  /** Reading a relative reference against `base`: `..` leaves a directory,
      `.` stays, any other segment enters one, and the last segment names the
      target; the empty reference denotes `base` itself. */
  function Resolve(base: Location, reference: string, sep: char): seq<string> {
    if reference == "" then base.dirs + [base.leaf]
    else Follow(base.dirs, Split(reference, sep))
  }

  function Follow(dirs: seq<string>, rel: seq<string>): seq<string>
    requires |rel| >= 1
    decreases |rel|
  {
    if |rel| == 1 then dirs + rel
    else if rel[0] == ".." then Follow(if |dirs| == 0 then [] else dirs[..|dirs| - 1], rel[1..])
    else if rel[0] == "." then Follow(dirs, rel[1..])
    else Follow(dirs + [rel[0]], rel[1..])
  }

  /** `reference`, as `MakeRelativePath` returns it from `from` to `to`,
      denotes `to`: on another volume it is the full path of `to`, otherwise
      it leads from `from` to `to` when read against `from`. */
  predicate Denotes(from: Location, reference: string, to: Location) {
    if OtherVolume(from, to) then Split(reference, DirectorySeparator) == to.dirs + [to.leaf]
    else Resolve(from, reference, OutputSeparator(to.scheme)) == to.dirs + [to.leaf]
  }

  /** A segment that holds no separator of either kind. */
  predicate SeparatorFree(s: string) {
    DirectorySeparator !in s && AltDirectorySeparator !in s
  }

  /** A directory segment that is taken literally when read back. */
  predicate PlainSegment(s: string) {
    SeparatorFree(s) && s != "." && s != ".."
  }

  lemma {:induction false} FollowUps(dirs: seq<string>, u: nat, rest: seq<string>)
    requires u <= |dirs| && |rest| >= 1
    ensures Follow(dirs, Ups(u) + rest) == Follow(dirs[..|dirs| - u], rest)
    decreases u
  {
    if u == 0 {
      assert Ups(u) + rest == rest;
      assert dirs[..|dirs|] == dirs;
    } else {
      var rel := Ups(u) + rest;
      assert rel[0] == "..";
      assert rel[1..] == Ups(u - 1) + rest;
      FollowUps(dirs[..|dirs| - 1], u - 1, rest);
      assert dirs[..|dirs| - 1][..|dirs| - 1 - (u - 1)] == dirs[..|dirs| - u];
    }
  }

  lemma {:induction false} FollowDown(dirs: seq<string>, path: seq<string>, leaf: string)
    requires forall i :: 0 <= i < |path| ==> PlainSegment(path[i])
    ensures Follow(dirs, path + [leaf]) == dirs + path + [leaf]
    decreases |path|
  {
    if |path| > 0 {
      var rel := path + [leaf];
      assert rel[0] == path[0] && rel[1..] == path[1..] + [leaf];
      FollowDown(dirs + [path[0]], path[1..], leaf);
      assert dirs + [path[0]] + path[1..] == dirs + path;
    } else {
      assert path + [leaf] == [leaf];
    }
  }

  lemma {:induction false} ReplaceJoin(parts: seq<string>, c: char)
    requires SepFree(parts, UriSeparator)
    ensures ReplaceChar(Join(parts, UriSeparator), UriSeparator, c) == Join(parts, c)
    decreases |parts|
  {
    if |parts| == 1 {
      assert ReplaceChar(parts[0], UriSeparator, c) == parts[0];
    } else if |parts| > 1 {
      ReplaceJoin(parts[1..], c);
      var tail := Join(parts[1..], UriSeparator);
      assert ReplaceChar(parts[0] + [UriSeparator] + tail, UriSeparator, c)
          == ReplaceChar(parts[0], UriSeparator, c) + [c] + ReplaceChar(tail, UriSeparator, c);
      assert ReplaceChar(parts[0], UriSeparator, c) == parts[0];
    }
  }

  /** The reference leads back: for two same-scheme locations the text
      `MakeRelativePath` returns denotes `to`, provided `to`'s directories are
      plain names. */
  lemma MakeRelativePathRoundTrip(from: Location, to: Location)
    requires from.text != "" && to.text != "" && from.scheme == to.scheme
    requires forall i :: 0 <= i < |to.dirs| ==> PlainSegment(to.dirs[i])
    requires SeparatorFree(to.leaf)
    ensures MakeRelativePath(from, to).Success?
    ensures Denotes(from, MakeRelativePath(from, to).value, to)
  {
    var segs := RelativeSegments(from, to);
    var sep := OutputSeparator(to.scheme);
    OutputIsJoin(from, to);
    if segs != [] {
      SegmentsSeparatorFree(from, to);
      SplitJoin(segs, sep);
      if OtherVolume(from, to) {
        assert segs == to.dirs + [to.leaf];
      } else if segs == [".", ""] {
        var k := CommonPrefixLength(from.dirs, to.dirs);
        assert |to.dirs| == k;
        assert to.dirs == to.dirs[..k] == from.dirs[..k] == from.dirs;
        assert Follow(from.dirs, segs) == Follow(from.dirs, [""]);
      } else {
        FollowRelative(from, to, sep);
      }
    } else {
      assert from.dirs == to.dirs;
      assert !OtherVolume(from, to);
    }
  }

  lemma SegmentsSeparatorFree(from: Location, to: Location)
    requires forall i :: 0 <= i < |to.dirs| ==> PlainSegment(to.dirs[i])
    requires SeparatorFree(to.leaf)
    ensures forall i :: 0 <= i < |RelativeSegments(from, to)| ==> SeparatorFree(RelativeSegments(from, to)[i])
  {
  }

  /** The returned text is the segments joined with the output separator. */
  lemma OutputIsJoin(from: Location, to: Location)
    requires from.text != "" && to.text != "" && from.scheme == to.scheme
    requires forall i :: 0 <= i < |to.dirs| ==> PlainSegment(to.dirs[i])
    requires SeparatorFree(to.leaf)
    ensures MakeRelativePath(from, to) == Success(Join(RelativeSegments(from, to), OutputSeparator(to.scheme)))
  {
    SegmentsSeparatorFree(from, to);
    if IsFileScheme(to.scheme) {
      ReplaceJoin(RelativeSegments(from, to), DirectorySeparator);
    }
  }

  /** The general case: climbing out of `from` and descending into `to`. */
  lemma FollowRelative(from: Location, to: Location, sep: char)
    requires forall i :: 0 <= i < |to.dirs| ==> PlainSegment(to.dirs[i])
    requires SeparatorFree(to.leaf)
    requires RelativeSegments(from, to) != [] && RelativeSegments(from, to) != [".", ""]
    requires !OtherVolume(from, to)
    ensures Join(RelativeSegments(from, to), sep) != ""
    ensures Follow(from.dirs, RelativeSegments(from, to)) == to.dirs + [to.leaf]
  {
    var segs := RelativeSegments(from, to);
    var k := CommonPrefixLength(from.dirs, to.dirs);
    var rest := to.dirs[k..] + [to.leaf];
    var u := |from.dirs| - k;
    assert segs == Ups(u) + rest;
    if |segs| == 1 {
      assert |rest| == 1 && u == 0;
      assert rest == [to.leaf];
      assert to.leaf != "";
    }
    FollowUps(from.dirs, u, rest);
    assert from.dirs[..|from.dirs| - u] == to.dirs[..k];
    FollowDown(to.dirs[..k], to.dirs[k..], to.leaf);
    assert to.dirs[..k] + to.dirs[k..] == to.dirs;
  }

  /** A file deeper below the start directory, a file reached by climbing
      out of it, the same on a web pair, a file on another volume, and a
      scheme mismatch. */
  lemma MakeRelativePathExamples()
    ensures MakeRelativePath(Location("C:\\a\\b\\", "file", ["C:", "a", "b"], ""),
                             Location("C:\\a\\b\\c\\d.txt", "file", ["C:", "a", "b", "c"], "d.txt"))
            == Success("c\\d.txt")
    ensures MakeRelativePath(Location("C:\\a\\b\\", "file", ["C:", "a", "b"], ""),
                             Location("C:\\x\\y.txt", "file", ["C:", "x"], "y.txt"))
            == Success("..\\..\\x\\y.txt")
    ensures MakeRelativePath(Location("http://h/a/b/", "http", ["a", "b"], ""),
                             Location("http://h/x/y.txt", "http", ["x"], "y.txt"))
            == Success("../../x/y.txt")
    ensures MakeRelativePath(Location("C:\\w\\T/", "file", ["C:", "w", "T"], ""),
                             Location("D:\\p\\x.cs", "file", ["D:", "p"], "x.cs"))
            == Success("D:\\p\\x.cs")
    ensures MakeRelativePath(Location("C:\\a\\b\\", "file", ["C:", "a", "b"], ""),
                             Location("http://h/x/y.txt", "http", ["x"], "y.txt"))
            == Success("http://h/x/y.txt")
  {
    FileExample();
    ClimbExample();
    WebExample();
    VolumeExample();
  }

  lemma FileExample()
    ensures MakeRelativePath(Location("C:\\a\\b\\", "file", ["C:", "a", "b"], ""),
                             Location("C:\\a\\b\\c\\d.txt", "file", ["C:", "a", "b", "c"], "d.txt"))
            == Success("c\\d.txt")
  {
    var f := Location("C:\\a\\b\\", "file", ["C:", "a", "b"], "");
    var t := Location("C:\\a\\b\\c\\d.txt", "file", ["C:", "a", "b", "c"], "d.txt");
    FileSegments(f, t);
    assert Join(["c", "d.txt"], UriSeparator) == "c/d.txt";
    assert ReplaceChar("c/d.txt", AltDirectorySeparator, DirectorySeparator) == "c\\d.txt";
  }

  lemma FileSegments(f: Location, t: Location)
    requires f.dirs == ["C:", "a", "b"] && f.leaf == "" && f.scheme == "file"
    requires t.dirs == ["C:", "a", "b", "c"] && t.leaf == "d.txt" && t.scheme == "file"
    ensures IsFileScheme(t.scheme)
    ensures RelativeSegments(f, t) == ["c", "d.txt"]
  {
    assert Lower("file") == "file";
    assert CommonPrefixLength(["C:", "a", "b"], ["C:", "a", "b", "c"]) == 3;
    assert ["C:", "a", "b", "c"][3..] == ["c"];
  }

  lemma ClimbExample()
    ensures MakeRelativePath(Location("C:\\a\\b\\", "file", ["C:", "a", "b"], ""),
                             Location("C:\\x\\y.txt", "file", ["C:", "x"], "y.txt"))
            == Success("..\\..\\x\\y.txt")
  {
    var f := Location("C:\\a\\b\\", "file", ["C:", "a", "b"], "");
    var t := Location("C:\\x\\y.txt", "file", ["C:", "x"], "y.txt");
    ClimbSegments(f, t);
    assert Join(["..", "..", "x", "y.txt"], UriSeparator) == "../../x/y.txt";
    assert ReplaceChar("../../x/y.txt", AltDirectorySeparator, DirectorySeparator) == "..\\..\\x\\y.txt";
  }

  lemma ClimbSegments(f: Location, t: Location)
    requires f.dirs == ["C:", "a", "b"] && f.leaf == "" && f.scheme == "file"
    requires t.dirs == ["C:", "x"] && t.leaf == "y.txt" && t.scheme == "file"
    ensures IsFileScheme(t.scheme)
    ensures RelativeSegments(f, t) == ["..", "..", "x", "y.txt"]
  {
    assert Lower("file") == "file";
    assert CommonPrefixLength(["C:", "a", "b"], ["C:", "x"]) == 1;
    assert ["C:", "x"][1..] == ["x"];
    assert Ups(2) == ["..", ".."];
  }

  lemma WebExample()
    ensures MakeRelativePath(Location("http://h/a/b/", "http", ["a", "b"], ""),
                             Location("http://h/x/y.txt", "http", ["x"], "y.txt"))
            == Success("../../x/y.txt")
  {
    var f := Location("http://h/a/b/", "http", ["a", "b"], "");
    var t := Location("http://h/x/y.txt", "http", ["x"], "y.txt");
    WebSegments(f, t);
    assert Join(["..", "..", "x", "y.txt"], UriSeparator) == "../../x/y.txt";
    assert Lower("http")[0] == 'h';
  }

  lemma WebSegments(f: Location, t: Location)
    requires f.dirs == ["a", "b"] && f.leaf == ""
    requires t.dirs == ["x"] && t.leaf == "y.txt" && t.scheme == "http"
    ensures RelativeSegments(f, t) == ["..", "..", "x", "y.txt"]
  {
    assert Lower("http")[0] == 'h';
    assert CommonPrefixLength(["a", "b"], ["x"]) == 0;
    assert Ups(2) == ["..", ".."];
  }

  lemma VolumeExample()
    ensures MakeRelativePath(Location("C:\\w\\T/", "file", ["C:", "w", "T"], ""),
                             Location("D:\\p\\x.cs", "file", ["D:", "p"], "x.cs"))
            == Success("D:\\p\\x.cs")
  {
    var f := Location("C:\\w\\T/", "file", ["C:", "w", "T"], "");
    var t := Location("D:\\p\\x.cs", "file", ["D:", "p"], "x.cs");
    VolumeSegments(f, t);
    assert Join(["D:", "p", "x.cs"], UriSeparator) == "D:/p/x.cs";
    assert ReplaceChar("D:/p/x.cs", AltDirectorySeparator, DirectorySeparator) == "D:\\p\\x.cs";
  }

  lemma VolumeSegments(f: Location, t: Location)
    requires f.dirs == ["C:", "w", "T"] && f.leaf == "" && f.scheme == "file"
    requires t.dirs == ["D:", "p"] && t.leaf == "x.cs" && t.scheme == "file"
    ensures RelativeSegments(f, t) == ["D:", "p", "x.cs"]
  {
    assert Lower("file") == "file";
    assert f.dirs[0] != t.dirs[0];
  }
}
