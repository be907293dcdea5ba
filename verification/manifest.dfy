/** `PatchTargetProject`: rewrites the one `ItemGroup` of the target project
    that the tool owns, so that it lists exactly the collected links plus the
    generated assembly-info file. The XML document is reduced to the root's
    child elements; an item group's children are `Compile` items or other
    elements. */
module Manifest {
  import opened Wrappers
  import opened TreeMirror

  /** An element inside a group: a `Compile` item with its `Include` attribute
      and optional nested `Link` value, or any other element. */
  datatype Item = Compile(includePath: string, link: Option<string>) | OtherItem(tag: string)

  datatype Attribute = Attribute(name: string, value: string)

  /** A child element of the project root (in the MSBuild namespace): its tag,
      its attributes and its child elements. */
  datatype Element = Element(tag: string, attributes: seq<Attribute>, items: seq<Item>)

  /** The project document, as the sequence of the root's child elements. */
  datatype Document = Document(root: seq<Element>)

  /** No item group qualifies; the original dereferences null here. */
  datatype PatchError = NoUsableItemGroup

  const ItemGroupTag: string := "ItemGroup"

  /** The fixed entry for the generated assembly-info file. */
  const AssemblyInfoItem: Item := Compile("Properties\\AssemblyInfo.cs", None)

  /** The two ways an item group can qualify, in order of preference. */
  datatype Rule = HoldsCompile | IsEmpty

  predicate Qualifies(e: Element, rule: Rule) {
    && e.tag == ItemGroupTag
    && match rule
       case HoldsCompile => exists k :: 0 <= k < |e.items| && e.items[k].Compile?
       case IsEmpty => |e.items| == 0
  }

  /** The first position at or after `from` whose element qualifies under `rule`. */
  function FirstQualifying(root: seq<Element>, rule: Rule, from: nat): (r: Option<nat>)
    requires from <= |root|
    ensures r.Some? ==> from <= r.value < |root| && Qualifies(root[r.value], rule)
    ensures r.Some? ==> forall j :: from <= j < r.value ==> !Qualifies(root[j], rule)
    ensures r.None? ==> forall j :: from <= j < |root| ==> !Qualifies(root[j], rule)
    decreases |root| - from
  {
    if from == |root| then None
    else if Qualifies(root[from], rule) then Some(from)
    else FirstQualifying(root, rule, from + 1)
  }

  /** The group the patch rewrites: the first item group holding a `Compile`
      item, else the first item group with no child element. */
  function SelectGroup(doc: Document): Option<nat> {
    match FirstQualifying(doc.root, HoldsCompile, 0)
    case Some(i) => Some(i)
    case None => FirstQualifying(doc.root, IsEmpty, 0)
  }

  /** The new children of the selected group: one `Compile` item per link, in
      order, with its include path and alias, then the assembly-info item. */
  function Entries(links: seq<LinkItem>): seq<Item> {
    seq(|links|, k requires 0 <= k < |links| => Compile(links[k].includePath, Some(links[k].link)))
      + [AssemblyInfoItem]
  }

  /** `PatchTargetProject(links)` on an already loaded document. */
  function Patch(doc: Document, links: seq<LinkItem>): (r: Result<Document, PatchError>)
    ensures r.Failure? <==>
              forall j :: 0 <= j < |doc.root| ==>
                !Qualifies(doc.root[j], HoldsCompile) && !Qualifies(doc.root[j], IsEmpty)
    ensures r.Success? ==> |r.value.root| == |doc.root|
  {
    match SelectGroup(doc)
    case None => Failure(NoUsableItemGroup)
    case Some(i) =>
      var group := doc.root[i];
      Success(Document(doc.root[i := Element(group.tag, [], Entries(links))]))
  }

  /** A qualifying position with no qualifying position before it is the one
      `FirstQualifying` finds. */
  lemma FirstQualifyingIs(root: seq<Element>, rule: Rule, i: nat)
    requires i < |root| && Qualifies(root[i], rule)
    requires forall j :: 0 <= j < i ==> !Qualifies(root[j], rule)
    ensures FirstQualifying(root, rule, 0) == Some(i)
  {
  }

  /** Which group is selected: the first item group holding a `Compile`
      item when there is one; otherwise the first item group without child
      elements; otherwise none. */
  lemma SelectGroupChoice(doc: Document)
    ensures (exists j :: 0 <= j < |doc.root| && Qualifies(doc.root[j], HoldsCompile)) ==>
              var i := SelectGroup(doc);
              && i.Some? && i.value < |doc.root| && Qualifies(doc.root[i.value], HoldsCompile)
              && forall j :: 0 <= j < i.value ==> !Qualifies(doc.root[j], HoldsCompile)
    ensures (forall j :: 0 <= j < |doc.root| ==> !Qualifies(doc.root[j], HoldsCompile)) ==>
              var i := SelectGroup(doc);
              && (i.Some? ==> i.value < |doc.root| && Qualifies(doc.root[i.value], IsEmpty)
                              && forall j :: 0 <= j < i.value ==> !Qualifies(doc.root[j], IsEmpty))
              && (i.None? <==> forall j :: 0 <= j < |doc.root| ==> !Qualifies(doc.root[j], IsEmpty))
  {
  }

  /** What a successful patch does: the selected group keeps its tag, loses
      its attributes, and holds exactly the link entries followed by the
      assembly-info entry; every other element is left as it was. */
  lemma PatchReplacesSelectedGroup(doc: Document, links: seq<LinkItem>)
    requires Patch(doc, links).Success?
    ensures var out := Patch(doc, links).value.root;
            var i := SelectGroup(doc).value;
            && i < |doc.root|
            && (forall j :: 0 <= j < |doc.root| && j != i ==> out[j] == doc.root[j])
            && out[i].tag == ItemGroupTag
            && out[i].attributes == []
            && |out[i].items| == |links| + 1
            && (forall k :: 0 <= k < |links| ==>
                  out[i].items[k] == Compile(links[k].includePath, Some(links[k].link)))
            && out[i].items[|links|] == AssemblyInfoItem
  {
    var i := SelectGroup(doc).value;
    assert Qualifies(doc.root[i], HoldsCompile) || Qualifies(doc.root[i], IsEmpty);
  }

  /** Patching is idempotent: patching the patched document with the same
      links selects the same group and reproduces the same document. */
  lemma PatchIdempotent(doc: Document, links: seq<LinkItem>)
    requires Patch(doc, links).Success?
    ensures Patch(Patch(doc, links).value, links) == Patch(doc, links)
  {
    var out := Patch(doc, links).value;
    var i := SelectGroup(doc).value;
    PatchReplacesSelectedGroup(doc, links);
    assert out.root[i].items[|links|].Compile?;
    assert Qualifies(out.root[i], HoldsCompile);
    forall j | 0 <= j < i
      ensures !Qualifies(out.root[j], HoldsCompile)
    {
      assert out.root[j] == doc.root[j];
    }
    FirstQualifyingIs(out.root, HoldsCompile, i);
    assert SelectGroup(out) == Some(i);
    assert out.root[i := Element(out.root[i].tag, [], Entries(links))] == out.root;
  }

  /** A document whose only item group is empty gets that group populated. */
  lemma EmptyGroupPopulated(other: seq<Element>, links: seq<LinkItem>)
    requires forall j :: 0 <= j < |other| ==> other[j].tag != ItemGroupTag
    ensures var doc := Document(other + [Element(ItemGroupTag, [], [])]);
            Patch(doc, links) == Success(Document(other + [Element(ItemGroupTag, [], Entries(links))]))
  {
    var doc := Document(other + [Element(ItemGroupTag, [], [])]);
    var n := |other|;
    assert forall j :: 0 <= j < n ==> !Qualifies(doc.root[j], HoldsCompile) && !Qualifies(doc.root[j], IsEmpty);
    assert !Qualifies(doc.root[n], HoldsCompile);
    FirstQualifyingIs(doc.root, IsEmpty, n);
    assert doc.root[n := Element(ItemGroupTag, [], Entries(links))] == other + [Element(ItemGroupTag, [], Entries(links))];
  }
}
