/**
 What the descriptions in app/importers/ead.py promise beyond the code, and when it holds: a document for every
 component, ids taken from the component, a hierarchy clients can rebuild (`EadTree.FlatteningRebuildsIff`).
 */
module EadPromises {
  import opened Wrappers
  import opened Text
  import opened Ead
  import opened EadTree

  // ---------------------------------------------------------------- one document per component

  /** Every component anywhere among these elements. */
  function ComponentsIn(r: Reader, elements: seq<Element>): nat {
    if elements == [] then 0
    else
      (if r.component(elements[0]) then 1 else 0) + ComponentsIn(r, elements[0].children)
      + ComponentsIn(r, elements[1..])
  }

  /** Every component has a description, and only components around it; none at all where the walk does not come. */
  predicate Reached(r: Reader, elements: seq<Element>, walked: bool) {
    elements == [] || (
      var e := elements[0];
      && (r.component(e) ==> walked && r.described(e))
      && Reached(r, e.children, walked && r.component(e))
      && Reached(r, elements[1..], walked))
  }

  lemma {:induction false} NoneReached(r: Reader, elements: seq<Element>)
    ensures Reached(r, elements, false) <==> ComponentsIn(r, elements) == 0
  {
    if elements != [] {
      NoneReached(r, elements[0].children);
      NoneReached(r, elements[1..]);
    }
  }

  lemma {:induction false} WalkReaches(r: Reader, elements: seq<Element>, parentId: string, n: nat)
    ensures |Docs(r, elements, parentId, n)| <= ComponentsIn(r, elements)
    ensures |Docs(r, elements, parentId, n)| == ComponentsIn(r, elements) <==> Reached(r, elements, true)
  {
    if elements != [] {
      var e := elements[0];
      if r.Kept(e) {
        WalkReaches(r, e.children, r.DocOf(e, parentId, n + 1).id, n + 1);
        WalkReaches(r, elements[1..], parentId, n + 1 + Visited(r, e.children));
      } else {
        NoneReached(r, e.children);
        WalkReaches(r, elements[1..], parentId, if r.component(e) then n + 1 else n);
      }
    }
  }

  /** The children of the archdesc: the walk comes into the first `dsc` and nowhere else. */
  predicate TopReached(r: Reader, children: seq<Element>) {
    if children == [] then true
    else if children[0].tag == "dsc" then Reached(r, children[0].children, true) && Reached(r, children[1..], false)
    else Reached(r, [children[0]], false) && TopReached(r, children[1..])
  }

  function FirstDsc(children: seq<Element>): seq<Element> {
    match FirstChild(children, "dsc") { case Some(dsc) => dsc.children case None => [] }
  }

  lemma {:induction false} TopReaches(r: Reader, children: seq<Element>, parentId: string)
    requires forall e: Element :: e.tag == "dsc" ==> !r.component(e)
    ensures |Docs(r, FirstDsc(children), parentId, 0)| <= ComponentsIn(r, children)
    ensures |Docs(r, FirstDsc(children), parentId, 0)| == ComponentsIn(r, children) <==> TopReached(r, children)
  {
    if children != [] {
      if children[0].tag == "dsc" {
        WalkReaches(r, children[0].children, parentId, 0);
        NoneReached(r, children[1..]);
      } else {
        TopReaches(r, children[1..], parentId);
        NoneReached(r, [children[0]]);
        assert ComponentsIn(r, [children[0]]) + ComponentsIn(r, children[1..]) == ComponentsIn(r, children);
      }
    }
  }

  lemma RootDescribed(root: Element)
    requires Archdesc(root).Some?
    ensures AllDocs(root) == [] <==> DidOf(Archdesc(root).value).None?
  {
  }

  /**
   A finding aid becomes one document for the archdesc and one for every component below it exactly when the archdesc
   has a `did` and every component lies in the first `dsc`, has a `did`, and is reached through components only.
   */
  lemma OneDocPerComponentIff(root: Element)
    requires Archdesc(root).Some?
    ensures var archdesc := Archdesc(root).value;
      (|AllDocs(root)| == 1 + ComponentsIn(EAD, archdesc.children))
      <==> (DidOf(archdesc).Some? && TopReached(EAD, archdesc.children))
  {
    var children := Archdesc(root).value.children;
    RootDescribed(root);
    if AllDocs(root) != [] {
      TopReaches(EAD, children, AllDocs(root)[0].id);
      assert TopComponents(Archdesc(root).value) == FirstDsc(children);
    }
  }

  /** Without a `did` of the archdesc nothing at all is indexed, whatever the components say. */
  lemma NothingWithoutRootDid(components: seq<Element>)
    ensures AllDocs(Named("archdesc", "", [Named("dsc", "", components)])) == []
  {
    var root := Named("archdesc", "", [Named("dsc", "", components)]);
    assert FirstChild(root.children[1..], "did") == None;
  }

  // ---------------------------------------------------------------- small finding aids

  function Named(tag: string, text: string, children: seq<Element>): Element {
    Element(tag, "", "", "", text, children)
  }

  function DidNamed(unitId: string): Element {
    Named("did", "", [Named("unitid", unitId, [])])
  }

  function Component(unitId: string, below: seq<Element>): Element {
    Named("c", "", [DidNamed(unitId)] + below)
  }

  function FindingAid(components: seq<Element>): Element {
    Named("archdesc", "", [DidNamed("r"), Named("dsc", "", components)])
  }

  lemma DidFacts(unitId: string)
    requires unitId != ""
    ensures OwnId(DidNamed(unitId)) == unitId && FindLocal([DidNamed(unitId)], "unittitle") == None
  {
    var did, unit := DidNamed(unitId), Named("unitid", unitId, []);
    assert FindLocal([unit], "unitid") == Some(unit);
    assert FindLocal([], "unittitle") == None;
    assert FindLocal([unit], "unittitle") == None;
  }

  lemma RootFacts(components: seq<Element>)
    ensures AllDocs(FindingAid(components)) == [Doc("r", "fonds", "", None)] + Docs(EAD, components, "r", 0)
    ensures Archdesc(FindingAid(components)) == Some(FindingAid(components))
    ensures TopComponents(FindingAid(components)) == components
  {
    var root := FindingAid(components);
    DidFacts("r");
    assert FirstChild(root.children, "did") == Some(DidNamed("r"));
    assert FirstChild(root.children[1..], "dsc") == Some(root.children[1]);
    assert FirstChild(root.children, "dsc") == Some(root.children[1]);
  }

  // ---------------------------------------------------------------- the id of a component

  /** The attributes of the component itself, which the description of `_best_id` falls back to, never matter. */
  lemma ComponentIdIgnored(e: Element, id: string, xmlId: string, parentId: Option<string>, fallback: string,
                           level: string)
    ensures ComponentToDoc(e.(id := id, xmlId := xmlId), parentId, fallback, level)
         == ComponentToDoc(e, parentId, fallback, level)
  {
  }

  /** The only component, without an id of its own and with nothing below it. */
  lemma GeneratedAlone(r: Reader, e: Element, parentId: string, n: nat)
    requires r.Kept(e) && r.ownId(e) == "" && |e.children| == 1 && !r.component(e.children[0])
    ensures Docs(r, [e], parentId, n) == [Doc(FallbackId(parentId, n + 1), r.level(e), r.title(e), Some(parentId))]
  {
    assert Docs(r, e.children[1..], FallbackId(parentId, n + 1), n + 1) == [];
    assert Docs(r, e.children, FallbackId(parentId, n + 1), n + 1) == [];
    assert [e][1..] == [];
  }

  function BareComponent(id: string): Element {
    Element("c", id, "", "", "", [Named("did", "", [])])
  }

  lemma BareLevel(id: string)
    ensures LevelOf(BareComponent(id), "") == "component" && IsComponent(BareComponent(id))
  {
    assert Strip("") == "";
  }

  lemma BareFacts(id: string)
    ensures var e := BareComponent(id);
      && EAD.Kept(e) && EAD.ownId(e) == "" && EAD.level(e) == "component" && EAD.title(e) == ""
      && !EAD.component(e.children[0])
  {
    EmptyDidFacts();
    BareLevel(id);
    assert DidOf(BareComponent(id)) == Some(Named("did", "", []));
  }

  /** A component with an `@id` and an empty `did` is indexed under a generated id instead. */
  lemma ComponentIdLost(id: string)
    ensures AllDocs(FindingAid([BareComponent(id)]))
      == [Doc("r", "fonds", "", None), Doc("r-1", "component", "", Some("r"))]
  {
    RootFacts([BareComponent(id)]);
    BareFacts(id);
    GeneratedAlone(EAD, BareComponent(id), "r", 0);
    FirstFallback();
  }

  lemma FirstFallback()
    ensures FallbackId("r", 1) == "r-1"
  {
  }

  lemma EmptyDidFacts()
    ensures OwnId(Named("did", "", [])) == "" && FindLocal([Named("did", "", [])], "unittitle") == None
  {
    var did := Named("did", "", []);
    assert FindLocal(did.children, "unitid") == None && FindLocal(did.children, "unittitle") == None;
    assert [did][1..] == [];
  }

  // ---------------------------------------------------------------- two finding aids, one list of documents

  /** How a reading takes an element of the form of `Component`. */
  predicate ReadAs(r: Reader, e: Element, id: string, below: seq<Element>) {
    && r.Kept(e) && id != "" && r.ownId(e) == id && r.level(e) == "component" && r.title(e) == ""
    && |e.children| > 0 && e.children[1..] == below && !r.component(e.children[0])
  }

  lemma ComponentReadAs(id: string, below: seq<Element>)
    requires id != ""
    ensures ReadAs(EAD, Component(id, below), id, below)
  {
    var e := Component(id, below);
    DidFacts(id);
    assert FirstChild(e.children, "did") == Some(DidNamed(id));
    assert Strip("") == "";
  }

  function DocNamed(id: string, parentId: string): Doc {
    Doc(id, "component", "", Some(parentId))
  }

  /** What such an element and its siblings flatten to, and what they are. */
  lemma ReadDocs(r: Reader, e: Element, rest: seq<Element>, id: string, below: seq<Element>, parentId: string, n: nat)
    requires ReadAs(r, e, id, below)
    ensures Docs(r, [e] + rest, parentId, n)
      == [DocNamed(id, parentId)] + Docs(r, below, id, n + 1) + Docs(r, rest, parentId, n + 1 + Visited(r, below))
    ensures Described(r, [e] + rest) == [Shape("component", "", Described(r, below))] + Described(r, rest)
  {
    assert ([e] + rest)[1..] == rest;
    assert Visited(r, e.children) == Visited(r, below);
    assert Docs(r, e.children, id, n + 1) == Docs(r, below, id, n + 1);
    assert Described(r, e.children) == Described(r, below);
  }

  /** A single one with nothing beside it. */
  lemma ReadAlone(r: Reader, e: Element, id: string, below: seq<Element>, parentId: string, n: nat)
    requires ReadAs(r, e, id, below)
    ensures Docs(r, [e], parentId, n) == [DocNamed(id, parentId)] + Docs(r, below, id, n + 1)
    ensures Described(r, [e]) == [Shape("component", "", Described(r, below))]
  {
    ReadDocs(r, e, [], id, below, parentId, n);
    assert [e] + [] == [e];
  }

  lemma NestedDocs(r: Reader, x: Element, second: Element, y: Element, n: nat)
    requires ReadAs(r, x, "x", [second]) && ReadAs(r, second, "x", [y]) && ReadAs(r, y, "y", [])
    ensures Docs(r, [x], "r", n) == [DocNamed("x", "r"), DocNamed("x", "x"), DocNamed("y", "x")]
    ensures Described(r, [x]) == [Shape("component", "", [Shape("component", "", [Shape("component", "", [])])])]
  {
    ReadAlone(r, x, "x", [second], "r", n);
    ReadAlone(r, second, "x", [y], "x", n + 1);
    ReadAlone(r, y, "y", [], "x", n + 2);
  }

  /** Two of them with nothing below. */
  lemma ReadTwo(r: Reader, a: Element, b: Element, id: string, other: string, parentId: string, n: nat)
    requires ReadAs(r, a, id, []) && ReadAs(r, b, other, [])
    ensures Docs(r, [a, b], parentId, n) == [DocNamed(id, parentId), DocNamed(other, parentId)]
    ensures Described(r, [a, b]) == [Shape("component", "", []), Shape("component", "", [])]
  {
    ReadDocs(r, a, [b], id, [], parentId, n);
    ReadAlone(r, b, other, [], parentId, n + 1);
    assert [a] + [b] == [a, b];
  }

  lemma SiblingDocs(r: Reader, x: Element, second: Element, y: Element, n: nat)
    requires ReadAs(r, x, "x", [second, y]) && ReadAs(r, second, "x", []) && ReadAs(r, y, "y", [])
    ensures Docs(r, [x], "r", n) == [DocNamed("x", "r"), DocNamed("x", "x"), DocNamed("y", "x")]
    ensures Described(r, [x]) == [Shape("component", "", [Shape("component", "", []), Shape("component", "", [])])]
  {
    ReadAlone(r, x, "x", [second, y], "r", n);
    ReadTwo(r, second, y, "x", "y", "x", n + 1);
  }

  /** One "x" in another, with a "y" inside the inner one, or beside it. */
  function Nested(): Element {
    FindingAid([Component("x", [Component("x", [Component("y", [])])])])
  }

  function Siblings(): Element {
    FindingAid([Component("x", [Component("x", []), Component("y", [])])])
  }

  /**
   With a repeated unitid two finding aids that differ flatten to the same documents, so no client, whatever it
   does with them, can rebuild both.
   */
  lemma SameDocsOtherTree()
    ensures AllDocs(Nested()) == AllDocs(Siblings())
    ensures Described(EAD, TopComponents(Archdesc(Nested()).value))
         != Described(EAD, TopComponents(Archdesc(Siblings()).value))
  {
    var y, inner, outer := Component("y", []), Component("x", [Component("y", [])]), Component("x", []);
    ComponentReadAs("y", []);
    ComponentReadAs("x", [y]);
    ComponentReadAs("x", []);
    ComponentReadAs("x", [inner]);
    ComponentReadAs("x", [outer, y]);
    NestedDocs(EAD, Component("x", [inner]), inner, y, 0);
    SiblingDocs(EAD, Component("x", [outer, y]), outer, y, 0);
    RootFacts([Component("x", [inner])]);
    RootFacts([Component("x", [outer, y])]);
  }
}
