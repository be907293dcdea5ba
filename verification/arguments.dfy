/** `ParseInputArgs` and the profile table it selects from. */
module Arguments {
  import opened Wrappers
  import opened Text
  import opened PathOps

  /** `TemplateInfo`: a profile the target project can be scaffolded for. */
  datatype Template = Template(key: string, folderSuffix: string, fileName: string, description: string)

  /** `_templates`, in declaration order. */
  const Templates: seq<Template> := [
    Template("PCL", "PORTABLE", "PCL", "PCL (portable)"),
    Template("NET45", "NET45", "NET45", ".Net 4.5"),
    Template("NET46", "NET46", "NET46", ".Net 4.6")
  ]

  /** The profile used when no switch names one: the first declared. */
  const DefaultTemplate: Template := Templates[0]

  /** `_templates.TryGetValue(key)`: an exact, case-sensitive key match. */
  function Lookup(key: string): (r: Option<Template>)
    ensures r.Some? ==> r.value in Templates && r.value.key == key
    ensures r.None? ==> forall i :: 0 <= i < |Templates| ==> Templates[i].key != key
  {
    if key == "PCL" then Some(Templates[0])
    else if key == "NET45" then Some(Templates[1])
    else if key == "NET46" then Some(Templates[2])
    else None
  }

  /** An argument starting with `--` is a profile switch. */
  predicate IsSwitch(a: string) {
    |a| >= 2 && a[..2] == "--"
  }

  /** The table key a switch names: the text after `--`, upper-cased. */
  function SwitchKey(a: string): string
    requires IsSwitch(a)
  {
    Upper(a[2..])
  }

  predicate KnownSwitch(a: string)
    requires IsSwitch(a)
  {
    Lookup(SwitchKey(a)).Some?
  }

  /** Switches that differ only in the case of their letters name the same
      profile: the key is compared after `ToUpperInvariant`. */
  lemma SwitchIgnoresCase(a: string, b: string)
    requires IsSwitch(a) && IsSwitch(b)
    ensures SwitchKey(a) == SwitchKey(b) <==> SameIgnoringCase(a[2..], b[2..])
    ensures SameIgnoringCase(a[2..], b[2..]) ==> Lookup(SwitchKey(a)) == Lookup(SwitchKey(b))
  {
    UpperIgnoresCase(a[2..], b[2..]);
  }

  /** The characters `Path.Combine` rejects with an `ArgumentException`
      ("Illegal characters in path."): `"`, `<`, `>`, `|` and control characters. */
  predicate InvalidPathChar(c: char) {
    c == '"' || c == '<' || c == '>' || c == '|' || c as int < 32
  }

  predicate LegalPath(s: string) {
    forall i :: 0 <= i < |s| ==> !InvalidPathChar(s[i])
  }

  predicate AllLegal(paths: seq<string>) {
    forall i :: 0 <= i < |paths| ==> LegalPath(paths[i])
  }

  /** Why parsing stops: a reason printed above the usage text, or the
      `ArgumentException` that `Path.Combine` throws for a path argument with
      illegal characters, which escapes `ParseInputArgs`. */
  datatype ParseError = Reason(message: string) | IllegalCharacters

  /** What the loop has gathered so far: the selected profile (`null` until a
      switch selects one) and the source folder path (`""` standing for `null`). */
  datatype Gathered = Gathered(selected: Option<Template>, source: string)

  /** A successful parse: the source folder and the profile. */
  datatype Request = Request(source: string, template: Template)

  /** One iteration of the `foreach` in `ParseInputArgs`, with the failure
      reason as the error. */
  function Step(current: string, g: Gathered, a: string): Result<Gathered, ParseError> {
    if IsSwitch(a) then
      match Lookup(SwitchKey(a)) {
        case Some(t) =>
          if g.selected.None? then Success(g.(selected := Some(t)))
          else Failure(Reason("Ambiguous profile switch: " + a))
        case None => Failure(Reason("Unsupported option: " + a))
      }
    else if g.source == "" then
      if LegalPath(current) && LegalPath(a) then Success(g.(source := Combine(current, a)))
      else Failure(IllegalCharacters)
    else Failure(Reason("Bad input."))
  }

  /** The `foreach` loop, which breaks at the first failure. */
  function Gather(current: string, g: Gathered, args: seq<string>): (r: Result<Gathered, ParseError>)
    ensures r.Success? && r.value.selected != g.selected ==>
              r.value.selected.Some? && r.value.selected.value in Templates
    decreases |args|
  {
    if |args| == 0 then Success(g)
    else
      match Step(current, g, args[0]) {
        case Failure(e) => Failure(e)
        case Success(g') => Gather(current, g', args[1..])
      }
  }

  /** `ParseInputArgs(args)` run from the working directory `current`. */
  function ParseInputArgs(current: string, args: seq<string>): (r: Result<Request, ParseError>)
    ensures |args| == 0 ==> r == Failure(Reason("Missing arguments."))
    ensures r.Success? ==> r.value.template in Templates
  {
    if |args| == 0 then Failure(Reason("Missing arguments."))
    else
      match Gather(current, Gathered(None, ""), args) {
        case Failure(e) => Failure(e)
        case Success(g) => Success(Request(g.source, g.selected.GetOr(DefaultTemplate)))
      }
  }

  /** The profile switches among `args`, in order. */
  function Switches(args: seq<string>): (r: seq<string>)
    ensures forall i :: 0 <= i < |r| ==> IsSwitch(r[i])
    decreases |args|
  {
    if |args| == 0 then []
    else if IsSwitch(args[0]) then [args[0]] + Switches(args[1..])
    else Switches(args[1..])
  }

  /** The positional arguments among `args`, in order. */
  function Positionals(args: seq<string>): (r: seq<string>)
    ensures forall i :: 0 <= i < |r| ==> !IsSwitch(r[i])
    decreases |args|
  {
    if |args| == 0 then []
    else if IsSwitch(args[0]) then Positionals(args[1..])
    else [args[0]] + Positionals(args[1..])
  }

  predicate AllKnown(switches: seq<string>)
    requires forall i :: 0 <= i < |switches| ==> IsSwitch(switches[i])
  {
    forall i :: 0 <= i < |switches| ==> KnownSwitch(switches[i])
  }

  /** The loop succeeds exactly when every switch is known, every positional
      argument is a legal path and, counting what was gathered before, at
      most one switch and one positional argument occur; it then holds the
      first switch's profile and the first positional argument combined with
      the working directory. */
  predicate GatherMeaning(current: string, g: Gathered, args: seq<string>) {
    var r := Gather(current, g, args);
    var sw := Switches(args);
    var pos := Positionals(args);
    && (r.Success? <==>
          && AllKnown(sw)
          && |sw| + (if g.selected.Some? then 1 else 0) <= 1
          && |pos| + (if g.source != "" then 1 else 0) <= 1
          && AllLegal(pos))
    && (r.Success? ==>
          && r.value.selected == (if |sw| == 0 then g.selected else Lookup(SwitchKey(sw[0])))
          && r.value.source == (if |pos| == 0 then g.source else Combine(current, pos[0])))
  }

  lemma {:induction false} GatherOutcome(current: string, g: Gathered, args: seq<string>)
    requires current != "" && LegalPath(current)
    ensures GatherMeaning(current, g, args)
    decreases |args|, 2
  {
    if |args| > 0 {
      if IsSwitch(args[0]) {
        GatherSwitch(current, g, args);
      } else {
        GatherPositional(current, g, args);
      }
    }
  }

  lemma {:induction false} GatherSwitch(current: string, g: Gathered, args: seq<string>)
    requires current != "" && LegalPath(current) && |args| > 0 && IsSwitch(args[0])
    ensures GatherMeaning(current, g, args)
    decreases |args|, 1
  {
    var a := args[0];
    var rest := args[1..];
    assert Switches(args) == [a] + Switches(rest);
    assert Positionals(args) == Positionals(rest);
    match Lookup(SwitchKey(a)) {
      case Some(t) =>
        if g.selected.None? {
          GatherOutcome(current, g.(selected := Some(t)), rest);
          assert AllKnown(Switches(args)) <==> AllKnown(Switches(rest)) by {
            assert forall i :: 0 <= i < |Switches(rest)| ==> Switches(args)[i + 1] == Switches(rest)[i];
          }
        }
      case None =>
        assert !KnownSwitch(Switches(args)[0]);
    }
  }

  lemma {:induction false} GatherPositional(current: string, g: Gathered, args: seq<string>)
    requires current != "" && LegalPath(current) && |args| > 0 && !IsSwitch(args[0])
    ensures GatherMeaning(current, g, args)
    decreases |args|, 1
  {
    var a := args[0];
    var rest := args[1..];
    assert Switches(args) == Switches(rest);
    assert Positionals(args) == [a] + Positionals(rest);
    if g.source == "" {
      if LegalPath(a) {
        GatherFirstPath(current, g, args);
      } else {
        assert !LegalPath(Positionals(args)[0]);
      }
    }
  }

  /** The first positional argument, a legal path, sets the source folder. */
  lemma {:induction false} GatherFirstPath(current: string, g: Gathered, args: seq<string>)
    requires current != "" && LegalPath(current) && |args| > 0 && !IsSwitch(args[0])
    requires g.source == "" && LegalPath(args[0])
    ensures GatherMeaning(current, g, args)
    decreases |args|, 0
  {
    var a := args[0];
    var rest := args[1..];
    assert Switches(args) == Switches(rest);
    assert Positionals(args) == [a] + Positionals(rest);
    AllLegalCons(a, Positionals(rest));
    CombineNonEmpty(current, a);
    GatherOutcome(current, g.(source := Combine(current, a)), rest);
  }

  /** A list of paths is legal exactly when its head and its tail are. */
  lemma AllLegalCons(a: string, later: seq<string>)
    ensures AllLegal([a] + later) <==> LegalPath(a) && AllLegal(later)
  {
    var all := [a] + later;
    assert all[0] == a;
    if AllLegal(all) {
      forall i | 0 <= i < |later|
        ensures LegalPath(later[i])
      {
        assert all[i + 1] == later[i];
      }
    }
    if LegalPath(a) && AllLegal(later) {
      forall i | 0 <= i < |all|
        ensures LegalPath(all[i])
      {
        if i > 0 {
          assert all[i] == later[i - 1];
        }
      }
    }
  }

  /** `ParseInputArgs` accepts exactly a non-empty list with known switches,
      at most one switch and at most one positional argument, which must be a
      legal path; the profile is the switch's, or `PCL` when there is none,
      and the source folder is the positional argument combined with the
      working directory. */
  lemma ParseInputArgsOutcome(current: string, args: seq<string>)
    requires current != "" && LegalPath(current)
    ensures var r := ParseInputArgs(current, args);
            var sw := Switches(args);
            var pos := Positionals(args);
            && (r.Success? <==> && |args| > 0 && AllKnown(sw) && |sw| <= 1 && |pos| <= 1
                                && AllLegal(pos))
            && (r.Success? && |sw| == 0 ==> r.value.template == DefaultTemplate)
            && (r.Success? && |sw| == 1 ==> Some(r.value.template) == Lookup(SwitchKey(sw[0])))
            && (r.Success? ==> r.value.source == (if |pos| == 0 then "" else Combine(current, pos[0])))
  {
    GatherOutcome(current, Gathered(None, ""), args);
  }

  /** The loop ends at the first failure: arguments after it are never looked at. */
  lemma {:induction false} GatherStopsAtFailure(current: string, g: Gathered, args: seq<string>, more: seq<string>)
    requires Gather(current, g, args).Failure?
    ensures Gather(current, g, args + more) == Gather(current, g, args)
    decreases |args|
  {
    assert |args| > 0;
    assert (args + more)[0] == args[0];
    assert (args + more)[1..] == args[1..] + more;
    match Step(current, g, args[0]) {
      case Failure(_) =>
      case Success(g') => GatherStopsAtFailure(current, g', args[1..], more);
    }
  }

  /** A failed parse stays failed, with the same reason, whatever follows. */
  lemma ParseStopsAtFailure(current: string, args: seq<string>, more: seq<string>)
    requires ParseInputArgs(current, args).Failure?
    requires |args| > 0
    ensures ParseInputArgs(current, args + more) == ParseInputArgs(current, args)
  {
    GatherStopsAtFailure(current, Gathered(None, ""), args, more);
  }

  /** The failure reasons on small argument lists. */
  lemma ParseInputArgsExamples()
    ensures ParseInputArgs("C:\\work", ["--pcl", "--net45", "Lib"]) == Failure(Reason("Ambiguous profile switch: --net45"))
    ensures ParseInputArgs("C:\\work", ["--PCL", "--pcl"]) == Failure(Reason("Ambiguous profile switch: --pcl"))
    ensures ParseInputArgs("C:\\work", ["Lib", "--xbox"]) == Failure(Reason("Unsupported option: --xbox"))
    ensures ParseInputArgs("C:\\work", ["Lib", "Other"]) == Failure(Reason("Bad input."))
    ensures ParseInputArgs("C:\\work", ["--Net46", "Lib"]) == Success(Request("C:\\work\\Lib", Templates[2]))
    ensures ParseInputArgs("C:\\work", ["a|b"]) == Failure(IllegalCharacters)
  {
    ExampleIllegal();
    ExampleAmbiguous();
    ExampleRepeated();
    ExampleUnsupported();
    ExampleBadInput();
    ExampleSwitchAndPath();
  }

  lemma NotSwitch(a: string)
    requires |a| >= 1 && a[0] != '-'
    ensures !IsSwitch(a)
  {
  }

  lemma Combined()
    ensures Combine("C:\\work", "Lib") == "C:\\work\\Lib"
  {
  }

  lemma KeyOf(a: string, key: string)
    requires |a| == |key| + 2 && a[..2] == "--"
    requires forall i :: 0 <= i < |key| ==> key[i] == UpperChar(a[i + 2])
    ensures IsSwitch(a) && SwitchKey(a) == key
  {
  }

  lemma ExampleAmbiguous()
    ensures ParseInputArgs("C:\\work", ["--pcl", "--net45", "Lib"]) == Failure(Reason("Ambiguous profile switch: --net45"))
  {
    KeyOf("--pcl", "PCL");
    KeyOf("--net45", "NET45");
    var args := ["--pcl", "--net45", "Lib"];
    var g1 := Gathered(Some(Templates[0]), "");
    assert Step("C:\\work", Gathered(None, ""), "--pcl") == Success(g1);
    assert args[1..] == ["--net45", "Lib"];
    assert "Ambiguous profile switch: " + "--net45" == "Ambiguous profile switch: --net45";
    assert Step("C:\\work", g1, "--net45") == Failure(Reason("Ambiguous profile switch: --net45"));
    assert Gather("C:\\work", g1, args[1..]) == Failure(Reason("Ambiguous profile switch: --net45"));
  }

  lemma ExampleRepeated()
    ensures ParseInputArgs("C:\\work", ["--PCL", "--pcl"]) == Failure(Reason("Ambiguous profile switch: --pcl"))
  {
    KeyOf("--PCL", "PCL");
    KeyOf("--pcl", "PCL");
    var args := ["--PCL", "--pcl"];
    var g1 := Gathered(Some(Templates[0]), "");
    assert Step("C:\\work", Gathered(None, ""), "--PCL") == Success(g1);
    assert args[1..] == ["--pcl"];
    assert "Ambiguous profile switch: " + "--pcl" == "Ambiguous profile switch: --pcl";
    assert Step("C:\\work", g1, "--pcl") == Failure(Reason("Ambiguous profile switch: --pcl"));
    assert Gather("C:\\work", g1, args[1..]) == Failure(Reason("Ambiguous profile switch: --pcl"));
  }

  lemma ExampleUnsupported()
    ensures ParseInputArgs("C:\\work", ["Lib", "--xbox"]) == Failure(Reason("Unsupported option: --xbox"))
  {
    NotSwitch("Lib");
    assert IsSwitch("--xbox") && SwitchKey("--xbox")[0] == 'X' by {
      assert "--xbox"[..2] == "--" && "--xbox"[2..] == "xbox";
    }
    Combined();
    var args := ["Lib", "--xbox"];
    var g1 := Gathered(None, "C:\\work\\Lib");
    assert Step("C:\\work", Gathered(None, ""), "Lib") == Success(g1);
    assert args[1..] == ["--xbox"];
    assert "Unsupported option: " + "--xbox" == "Unsupported option: --xbox";
    assert Step("C:\\work", g1, "--xbox") == Failure(Reason("Unsupported option: --xbox"));
    assert Gather("C:\\work", g1, args[1..]) == Failure(Reason("Unsupported option: --xbox"));
  }

  lemma ExampleBadInput()
    ensures ParseInputArgs("C:\\work", ["Lib", "Other"]) == Failure(Reason("Bad input."))
  {
    NotSwitch("Lib");
    NotSwitch("Other");
    Combined();
    var args := ["Lib", "Other"];
    var g1 := Gathered(None, "C:\\work\\Lib");
    assert Step("C:\\work", Gathered(None, ""), "Lib") == Success(g1);
    assert args[1..] == ["Other"];
    assert Gather("C:\\work", g1, args[1..]) == Failure(Reason("Bad input."));
  }

  lemma ExampleSwitchAndPath()
    ensures ParseInputArgs("C:\\work", ["--Net46", "Lib"]) == Success(Request("C:\\work\\Lib", Templates[2]))
  {
    KeyOf("--Net46", "NET46");
    NotSwitch("Lib");
    Combined();
    var args := ["--Net46", "Lib"];
    var g1 := Gathered(Some(Templates[2]), "");
    var g2 := Gathered(Some(Templates[2]), "C:\\work\\Lib");
    assert Step("C:\\work", Gathered(None, ""), "--Net46") == Success(g1);
    assert Step("C:\\work", g1, "Lib") == Success(g2);
    assert args[1..] == ["Lib"];
    assert ["Lib"][1..] == [];
    assert Gather("C:\\work", g1, args[1..]) == Success(g2);
  }

  lemma ExampleIllegal()
    ensures ParseInputArgs("C:\\work", ["a|b"]) == Failure(IllegalCharacters)
  {
    NotSwitch("a|b");
    assert InvalidPathChar("a|b"[1]);
    assert Gather("C:\\work", Gathered(None, ""), ["a|b"]) == Failure(IllegalCharacters);
  }
}
