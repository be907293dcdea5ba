/** Character-level helpers: invariant-culture case mapping restricted to ASCII,
    and joining/splitting a string on a separator character. */
module Text {

  /** `Char.ToLowerInvariant` on the ASCII range. */
  function LowerChar(c: char): char {
    if 'A' <= c <= 'Z' then (c as int + 32) as char else c
  }

  /** `Char.ToUpperInvariant` on the ASCII range. */
  function UpperChar(c: char): char {
    if 'a' <= c <= 'z' then (c as int - 32) as char else c
  }

  /** `String.ToLowerInvariant`: each upper-case ASCII letter becomes its
      lower-case partner, every other character is kept. */
  function Lower(s: string): (r: string)
    ensures |r| == |s|
    ensures forall i :: 0 <= i < |s| ==> !('A' <= r[i] <= 'Z')
  {
    seq(|s|, i requires 0 <= i < |s| => LowerChar(s[i]))
  }

  /** `String.ToUpperInvariant`: each lower-case ASCII letter becomes its
      upper-case partner, every other character is kept. */
  function Upper(s: string): (r: string)
    ensures |r| == |s|
    ensures forall i :: 0 <= i < |s| ==> !('a' <= r[i] <= 'z')
  {
    seq(|s|, i requires 0 <= i < |s| => UpperChar(s[i]))
  }

  /** What `Lower` does to each character: an upper-case ASCII letter becomes
      its lower-case partner, every other character is kept. */
  lemma LowerLetters(s: string)
    ensures forall i :: 0 <= i < |s| ==>
              if 'A' <= s[i] <= 'Z' then Lower(s)[i] as int == s[i] as int + 32 else Lower(s)[i] == s[i]
  {
  }

  /** What `Upper` does to each character: a lower-case ASCII letter becomes
      its upper-case partner, every other character is kept. */
  lemma UpperLetters(s: string)
    ensures forall i :: 0 <= i < |s| ==>
              if 'a' <= s[i] <= 'z' then Upper(s)[i] as int == s[i] as int - 32 else Upper(s)[i] == s[i]
  {
  }

  /** `c` and `d` are the same character, or the two cases of one ASCII letter. */
  predicate CaseVariants(c: char, d: char) {
    || c == d
    || ('a' <= c <= 'z' && d as int == c as int - 32)
    || ('A' <= c <= 'Z' && d as int == c as int + 32)
  }

  /** `a` and `b` differ at most in the case of ASCII letters
      (`StringComparison.OrdinalIgnoreCase` on ASCII text). */
  predicate SameIgnoringCase(a: string, b: string) {
    |a| == |b| && forall i :: 0 <= i < |a| ==> CaseVariants(a[i], b[i])
  }

  /** Lower-casing identifies exactly the strings that differ only in case. */
  lemma LowerIgnoresCase(a: string, b: string)
    ensures Lower(a) == Lower(b) <==> SameIgnoringCase(a, b)
  {
    if Lower(a) == Lower(b) {
      forall i | 0 <= i < |a|
        ensures CaseVariants(a[i], b[i])
      {
        assert Lower(a)[i] == Lower(b)[i];
      }
    }
    if SameIgnoringCase(a, b) {
      forall i | 0 <= i < |a|
        ensures Lower(a)[i] == Lower(b)[i]
      {
        assert CaseVariants(a[i], b[i]);
      }
    }
  }

  /** Upper-casing identifies exactly the strings that differ only in case. */
  lemma UpperIgnoresCase(a: string, b: string)
    ensures Upper(a) == Upper(b) <==> SameIgnoringCase(a, b)
  {
    if Upper(a) == Upper(b) {
      forall i | 0 <= i < |a|
        ensures CaseVariants(a[i], b[i])
      {
        assert Upper(a)[i] == Upper(b)[i];
      }
    }
    if SameIgnoringCase(a, b) {
      forall i | 0 <= i < |a|
        ensures Upper(a)[i] == Upper(b)[i]
      {
        assert CaseVariants(a[i], b[i]);
      }
    }
  }

  /** The pieces `parts` glued together with `sep` between neighbours. */
  function Join(parts: seq<string>, sep: char): string
    decreases |parts|
  {
    if |parts| == 0 then ""
    else if |parts| == 1 then parts[0]
    else parts[0] + [sep] + Join(parts[1..], sep)
  }

  /** The maximal `sep`-free pieces of `s`, left to right; never empty
      (the empty string is one empty piece). */
  function Split(s: string, sep: char): (parts: seq<string>)
    ensures |parts| >= 1
    ensures forall i :: 0 <= i < |parts| ==> sep !in parts[i]
    decreases |s|
  {
    if |s| == 0 then [""]
    else
      var rest := Split(s[1..], sep);
      if s[0] == sep then [""] + rest
      else [[s[0]] + rest[0]] + rest[1..]
  }

  /** Every occurrence of `from` in `s` replaced by `to` (`String.Replace(char, char)`). */
  function ReplaceChar(s: string, from: char, to: char): (r: string)
    ensures |r| == |s|
    ensures forall i :: 0 <= i < |s| ==> r[i] == (if s[i] == from then to else s[i])
  {
    seq(|s|, i requires 0 <= i < |s| => if s[i] == from then to else s[i])
  }

  /** None of the pieces contains the separator. */
  predicate SepFree(parts: seq<string>, sep: char) {
    forall i :: 0 <= i < |parts| ==> sep !in parts[i]
  }

  lemma {:induction false} SplitSepFree(p: string, sep: char)
    requires sep !in p
    ensures Split(p, sep) == [p]
    decreases |p|
  {
    if |p| > 0 {
      SplitSepFree(p[1..], sep);
      assert [p[0]] + p[1..] == p;
    }
  }

  lemma {:induction false} SplitAfterPiece(p: string, sep: char, t: string)
    requires sep !in p
    ensures Split(p + [sep] + t, sep) == [p] + Split(t, sep)
    decreases |p|
  {
    if |p| == 0 {
      assert p + [sep] + t == [sep] + t;
      assert ([sep] + t)[1..] == t;
    } else {
      var s := p + [sep] + t;
      assert s[1..] == p[1..] + [sep] + t;
      SplitAfterPiece(p[1..], sep, t);
      assert [p[0]] + p[1..] == p;
    }
  }

  /** Splitting undoes joining, provided no piece contains the separator. */
  lemma {:induction false} SplitJoin(parts: seq<string>, sep: char)
    requires |parts| >= 1
    requires SepFree(parts, sep)
    ensures Split(Join(parts, sep), sep) == parts
    decreases |parts|
  {
    if |parts| == 1 {
      SplitSepFree(parts[0], sep);
    } else {
      SplitJoin(parts[1..], sep);
      SplitAfterPiece(parts[0], sep, Join(parts[1..], sep));
      assert [parts[0]] + parts[1..] == parts;
    }
  }
}
