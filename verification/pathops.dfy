/** The parts of `System.IO.Path` the tool relies on, with the Windows separator
    constants (the tool produces MSBuild `.csproj` files). */
module PathOps {
  import opened Text

  /** `Path.DirectorySeparatorChar`. */
  const DirectorySeparator: char := '\\'
  /** `Path.AltDirectorySeparatorChar`. */
  const AltDirectorySeparator: char := '/'
  /** `Path.VolumeSeparatorChar`. */
  const VolumeSeparator: char := ':'

  predicate IsSeparator(c: char) {
    c == DirectorySeparator || c == AltDirectorySeparator
  }

  /** `Path.IsPathRooted`: a leading separator or a drive letter. */
  predicate IsRooted(p: string) {
    (|p| >= 1 && IsSeparator(p[0])) || (|p| >= 2 && p[1] == VolumeSeparator)
  }

  /** A name the file system can hand out for one directory entry: not empty,
      no separator or volume character, and not one of the dot names. */
  predicate IsEntryName(n: string) {
    && |n| > 0
    && n != "." && n != ".."
    && forall i :: 0 <= i < |n| ==> !IsSeparator(n[i]) && n[i] != VolumeSeparator
  }

  predicate AreEntryNames(ns: seq<string>) {
    forall i :: 0 <= i < |ns| ==> IsEntryName(ns[i])
  }

  /** `a` ends in a directory or volume separator, so a relative part can
      follow it directly. */
  predicate EndsInSeparator(a: string) {
    |a| > 0 && (IsSeparator(a[|a| - 1]) || a[|a| - 1] == VolumeSeparator)
  }

  /** `Path.Combine(a, b)`: an empty part yields the other one, a rooted `b`
      wins, and one separator is inserted unless `a` already ends in one. */
  function Combine(a: string, b: string): (r: string)
    ensures |b| == 0 ==> r == a
    ensures |b| > 0 && (|a| == 0 || IsRooted(b)) ==> r == b
    ensures |b| > 0 && |a| > 0 && !IsRooted(b) ==>
              r == a + (if EndsInSeparator(a) then "" else [DirectorySeparator]) + b
    ensures |b| > 0 ==> |r| >= |b| && r[|r| - |b|..] == b
    ensures |b| > 0 && !IsRooted(b) ==> |r| >= |a| && r[..|a|] == a
  {
    if |b| == 0 then a
    else if |a| == 0 then b
    else if IsRooted(b) then b
    else if EndsInSeparator(a) then a + b
    else a + [DirectorySeparator] + b
  }

  /** Combining a non-empty part never yields an empty path. */
  lemma CombineNonEmpty(a: string, b: string)
    requires |a| > 0 || |b| > 0
    ensures |Combine(a, b)| > 0
  {
  }

  /** The path made of the entry names `chain`, separated by the directory separator. */
  function JoinPath(chain: seq<string>): string {
    Join(chain, DirectorySeparator)
  }

  lemma {:induction false} JoinPathShape(chain: seq<string>)
    requires |chain| > 0 && AreEntryNames(chain)
    ensures |JoinPath(chain)| > 0
    ensures !IsSeparator(JoinPath(chain)[|JoinPath(chain)| - 1])
    ensures JoinPath(chain)[|JoinPath(chain)| - 1] != VolumeSeparator
    decreases |chain|
  {
    if |chain| > 1 {
      JoinPathShape(chain[1..]);
      var tail := JoinPath(chain[1..]);
      assert JoinPath(chain) == chain[0] + [DirectorySeparator] + tail;
      assert JoinPath(chain)[|JoinPath(chain)| - 1] == tail[|tail| - 1];
    } else {
      assert JoinPath(chain) == chain[0];
    }
  }

  lemma {:induction false} JoinPathSnoc(chain: seq<string>, n: string)
    requires |chain| > 0
    ensures JoinPath(chain + [n]) == JoinPath(chain) + [DirectorySeparator] + n
    decreases |chain|
  {
    if |chain| == 1 {
      assert chain + [n] == [chain[0], n];
      assert [chain[0], n][1..] == [n];
      assert Join([n], DirectorySeparator) == n;
      assert JoinPath(chain) == chain[0];
    } else {
      assert (chain + [n])[1..] == chain[1..] + [n];
      JoinPathSnoc(chain[1..], n);
    }
  }

  /** Repeated `Path.Combine` of entry names builds exactly the separator-joined
      chain: combining the chain so far with one more name appends that name. */
  lemma CombineExtendsChain(chain: seq<string>, n: string)
    requires AreEntryNames(chain) && IsEntryName(n)
    ensures Combine(JoinPath(chain), n) == JoinPath(chain + [n])
  {
    if |chain| == 0 {
      assert chain + [n] == [n];
    } else {
      JoinPathShape(chain);
      JoinPathSnoc(chain, n);
    }
  }

  /** Index of the last `'.'` in `s[..i]` that is not preceded (to its right)
      by a separator or volume character, scanning from the end as
      `Path.GetExtension` does; -1 when the scan stops without one. */
  function ExtensionDot(s: string, i: nat): (d: int)
    requires i <= |s|
    ensures -1 <= d < i
    ensures d >= 0 ==> s[d] == '.'
    ensures d >= 0 ==> forall j :: d < j < i ==> s[j] != '.' && !IsSeparator(s[j]) && s[j] != VolumeSeparator
    ensures d == -1 && (forall j :: 0 <= j < i ==> !IsSeparator(s[j]) && s[j] != VolumeSeparator) ==>
              forall j :: 0 <= j < i ==> s[j] != '.'
    decreases i
  {
    if i == 0 then -1
    else if s[i - 1] == '.' then i - 1
    else if IsSeparator(s[i - 1]) || s[i - 1] == VolumeSeparator then -1
    else ExtensionDot(s, i - 1)
  }

  /** `Path.GetExtension(name)`: the final `.xxx` suffix with its dot, or empty
      when there is no dot or the dot is the last character. */
  function Extension(name: string): (r: string)
    ensures r == "" || (2 <= |r| <= |name| && r[0] == '.' && r == name[|name| - |r|..])
    ensures forall j :: 1 <= j < |r| ==> r[j] != '.'
  {
    var d := ExtensionDot(name, |name|);
    if d < 0 || d == |name| - 1 then "" else name[d..]
  }

  /** `Path.GetFileNameWithoutExtension` applied to a bare file name: everything
      before the last dot. */
  function FileNameWithoutExtension(name: string): (r: string)
    ensures |r| <= |name| && r == name[..|r|]
    ensures |r| < |name| ==> name[|r|] == '.' && forall j :: |r| < j < |name| ==> name[j] != '.'
    ensures |r| == |name| ==> forall j :: 0 <= j < |name| ==> name[j] != '.'
  {
    var d := LastDot(name, |name|);
    if d < 0 then name else name[..d]
  }

  function LastDot(s: string, i: nat): (d: int)
    requires i <= |s|
    ensures -1 <= d < i
    ensures d >= 0 ==> s[d] == '.'
    ensures forall j :: d < j < i ==> s[j] != '.'
    decreases i
  {
    if i == 0 then -1
    else if s[i - 1] == '.' then i - 1
    else LastDot(s, i - 1)
  }

  /** For an entry name, stem and extension split the name in two, unless the
      name ends in a dot, whose extension is empty although its stem drops the dot. */
  lemma StemAndExtension(name: string)
    requires IsEntryName(name)
    ensures |name| > 0 && name[|name| - 1] == '.' ==>
              Extension(name) == "" && FileNameWithoutExtension(name) + "." == name
    ensures !(|name| > 0 && name[|name| - 1] == '.') ==>
              FileNameWithoutExtension(name) + Extension(name) == name
  {
    var d := ExtensionDot(name, |name|);
    var e := LastDot(name, |name|);
    assert d == e;
    if d >= 0 {
      assert name[..d] + name[d..] == name;
    }
  }
}
