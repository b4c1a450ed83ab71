/**
 Flattening a finding aid (app/importers/ead.py): a document per described component, in reading order, each pointing
 to its parent. A tag stands for its local name, and `text` for the trimmed text of the element.
 */
module Ead {
  import opened Wrappers
  import opened Text
  import opened Decimal

  datatype Element = Element(tag: string, id: string, xmlId: string, level: string, text: string,
                             children: seq<Element>)

  datatype Doc = Doc(id: string, level: string, title: string, parentId: Option<string>)

  /** `_find_local`: the first element of that name, the given ones included, in reading order. */
  function FindLocal(elements: seq<Element>, name: string): Option<Element> {
    if elements == [] then None
    else if elements[0].tag == name then Some(elements[0])
    else
      var inside := FindLocal(elements[0].children, name);
      if inside.Some? then inside else FindLocal(elements[1..], name)
  }

  function FirstChild(children: seq<Element>, name: string): Option<Element> {
    if children == [] then None
    else if children[0].tag == name then Some(children[0])
    else FirstChild(children[1..], name)
  }

  function TextOf(e: Option<Element>): string {
    if e.Some? then e.value.text else ""
  }

  /** _COMPONENT_TAGS */
  predicate IsComponent(e: Element) {
    e.tag in {"c", "c01", "c02", "c03", "c04", "c05", "c06", "c07", "c08", "c09", "c10", "c11", "c12"}
  }

  /** A component is a `c`, or a `c` with its depth in two digits, from 01 to 12. */
  lemma ComponentTags(e: Element)
    ensures IsComponent(e) <==> e.tag == "c" || exists d: nat :: 1 <= d <= 12 && e.tag == TagAt(d)
  {
    forall d: nat | 1 <= d <= 12 ensures TagAt(d) == DEPTHS[d - 1] {
      assert TagAt(d) == ['c', DEPTHS[d - 1][1], DEPTHS[d - 1][2]];
    }
    if e.tag in DEPTHS {
      var k: nat :| k < 12 && DEPTHS[k] == e.tag;
      assert TagAt(k + 1) == e.tag;
    }
  }

  const DEPTHS := ["c01", "c02", "c03", "c04", "c05", "c06", "c07", "c08", "c09", "c10", "c11", "c12"]

  function TagAt(d: nat): string
    requires d < 100
  {
    ['c', DigitChar(d / 10), DigitChar(d % 10)]
  }

  function Or(a: string, b: string): string {
    if a != "" then a else b
  }

  /** The id a description carries itself: its unitid, else the attributes of the `did`; "" if none. */
  function OwnId(did: Element): string {
    Or(TextOf(FindLocal([did], "unitid")), Or(did.id, did.xmlId))
  }

  /** `_best_id` */
  function BestId(did: Element, fallback: string): string {
    Or(OwnId(did), fallback)
  }

  /** `_component_to_doc`, without the descriptive fields other than the title. */
  function ComponentToDoc(e: Element, parentId: Option<string>, fallback: string, levelOverride: string): Option<Doc> {
    var did := FirstChild(e.children, "did");
    if did.None? || BestId(did.value, fallback) == "" then None
    else
      Some(Doc(BestId(did.value, fallback), LevelOf(e, levelOverride),
               TextOf(FindLocal([did.value], "unittitle")), parentId))
  }

  function LevelOf(e: Element, levelOverride: string): string {
    Or(levelOverride, Or(Strip(e.level), "component"))
  }

  function FallbackId(parentId: string, n: nat): (s: string)
    ensures s != ""
  {
    parentId + "-" + Dec(n)
  }

  function DidOf(e: Element): Option<Element> {
    FirstChild(e.children, "did")
  }

  function OwnIdOf(e: Element): string {
    if DidOf(e).Some? then OwnId(DidOf(e).value) else ""
  }

  function TitleOf(e: Element): string {
    if DidOf(e).Some? then TextOf(FindLocal([DidOf(e).value], "unittitle")) else ""
  }

  /**
   What the walk needs to know of an element. The theorems about the walk hold for any such reading; EAD is the
   one the importer uses.
   */
  datatype Reader = Reader(component: Element -> bool, described: Element -> bool, ownId: Element -> string,
                           level: Element -> string, title: Element -> string)
  {
    /** A component with a description; the others are dropped with all that is in them. */
    predicate Kept(e: Element) {
      component(e) && described(e)
    }

    function DocOf(e: Element, parentId: string, n: nat): Doc {
      Doc(Or(ownId(e), FallbackId(parentId, n)), level(e), title(e), Some(parentId))
    }

    function Read(e: Element, parentId: string, n: nat): Option<Doc> {
      if Kept(e) then Some(DocOf(e, parentId, n)) else None
    }

    /** It reads components as `_component_to_doc` does. */
    ghost predicate Imports() {
      forall e :: ImportsAt(e)
    }

    ghost predicate ImportsAt(e: Element) {
      && (component(e) <==> IsComponent(e))
      && forall parentId, n {:trigger Read(e, parentId, n)} :: IsComponent(e) ==>
           Read(e, parentId, n) == ComponentToDoc(e, Some(parentId), FallbackId(parentId, n), "")
    }
  }

  const EAD := Reader((e: Element) => IsComponent(e), (e: Element) => DidOf(e).Some?, (e: Element) => OwnIdOf(e),
                      (e: Element) => LevelOf(e, ""), (e: Element) => TitleOf(e))

  /** `_component_to_doc` on a component gives the document of the reading, or none. */
  lemma ComponentRead(e: Element, parentId: string, n: nat)
    requires IsComponent(e)
    ensures ComponentToDoc(e, Some(parentId), FallbackId(parentId, n), "")
      == if EAD.Kept(e) then Some(EAD.DocOf(e, parentId, n)) else None
  {
  }

  lemma EadImports()
    ensures EAD.Imports()
  {
    forall e ensures EAD.ImportsAt(e) {
      EadImportsAt(e);
    }
  }

  lemma EadImportsAt(e: Element)
    ensures EAD.ImportsAt(e)
  {
    forall parentId: string, n: nat | IsComponent(e)
      ensures EAD.Read(e, parentId, n) == ComponentToDoc(e, Some(parentId), FallbackId(parentId, n), "")
    {
      ComponentRead(e, parentId, n);
    }
  }

  // ---------------------------------------------------------------- the walk

  /** How far the shared counter moves: every component visited, with or without a description. */
  function Visited(r: Reader, elements: seq<Element>): nat {
    if elements == [] then 0
    else
      (if r.Kept(elements[0]) then 1 + Visited(r, elements[0].children) else if r.component(elements[0]) then 1 else 0)
      + Visited(r, elements[1..])
  }

  /** What `_walk` yields for these children when the counter stands at n. */
  function Docs(r: Reader, elements: seq<Element>, parentId: string, n: nat): seq<Doc> {
    if elements == [] then []
    else
      var e := elements[0];
      if r.Kept(e) then
        var doc := r.DocOf(e, parentId, n + 1);
        [doc] + Docs(r, e.children, doc.id, n + 1) + Docs(r, elements[1..], parentId, n + 1 + Visited(r, e.children))
      else
        Docs(r, elements[1..], parentId, if r.component(e) then n + 1 else n)
  }

  class Counter {
    var n: nat

    constructor ()
      ensures n == 0
    {
      n := 0;
    }
  }

  lemma SkipChild(r: Reader, children: seq<Element>, i: nat, parentId: string, n: nat)
    requires i < |children| && !r.Kept(children[i])
    ensures var m := if r.component(children[i]) then n + 1 else n;
      && Docs(r, children[i..], parentId, n) == Docs(r, children[i + 1..], parentId, m)
      && n + Visited(r, children[i..]) == m + Visited(r, children[i + 1..])
  {
    assert children[i..][0] == children[i] && children[i..][1..] == children[i + 1..];
  }

  lemma KeepChild(r: Reader, children: seq<Element>, i: nat, parentId: string, n: nat)
    requires i < |children| && r.Kept(children[i])
    ensures var doc, m := r.DocOf(children[i], parentId, n + 1), n + 1 + Visited(r, children[i].children);
      && Docs(r, children[i..], parentId, n)
           == [doc] + Docs(r, children[i].children, doc.id, n + 1) + Docs(r, children[i + 1..], parentId, m)
      && n + Visited(r, children[i..]) == m + Visited(r, children[i + 1..])
  {
    assert children[i..][0] == children[i] && children[i..][1..] == children[i + 1..];
  }

  /** What is yielded for a kept child leaves the rest to its siblings. */
  lemma KeptTurn(r: Reader, child: Element, rest: seq<Element>, parentId: string, n: nat, sofar: seq<Doc>, doc: Doc,
                 below: seq<Doc>)
    requires r.Read(child, parentId, n + 1) == Some(doc) && below == Docs(r, child.children, doc.id, n + 1)
    ensures var m := n + 1 + Visited(r, child.children);
      && sofar + [doc] + below + Docs(r, rest, parentId, m) == sofar + Docs(r, [child] + rest, parentId, n)
      && m + Visited(r, rest) == n + Visited(r, [child] + rest)
  {
    assert ([child] + rest)[1..] == rest;
  }

  lemma SkipTurn(r: Reader, child: Element, rest: seq<Element>, parentId: string, n: nat)
    requires !r.Kept(child)
    ensures var m := if r.component(child) then n + 1 else n;
      && Docs(r, [child] + rest, parentId, n) == Docs(r, rest, parentId, m)
      && n + Visited(r, [child] + rest) == m + Visited(r, rest)
  {
    assert ([child] + rest)[1..] == rest;
  }

  lemma SkipUnless(r: Reader, child: Element, rest: seq<Element>, parentId: string, n: nat, doc: Option<Doc>)
    requires r.component(child) && doc == r.Read(child, parentId, n + 1)
    ensures doc.None? ==>
      && Docs(r, [child] + rest, parentId, n) == Docs(r, rest, parentId, n + 1)
      && n + Visited(r, [child] + rest) == n + 1 + Visited(r, rest)
  {
    if doc.None? {
      SkipTurn(r, child, rest, parentId, n);
    }
  }

  /** `_walk`, on a reading of components that is the importer's. */
  method Walk(ghost r: Reader, node: Element, parentId: string, counter: Counter) returns (docs: seq<Doc>)
    requires r.Imports()
    modifies counter
    ensures docs == Docs(r, node.children, parentId, old(counter.n))
    ensures counter.n == old(counter.n) + Visited(r, node.children)
    decreases node, 1
  {
    docs := [];
    assert node.children[0..] == node.children;
    for i := 0 to |node.children|
      invariant docs + Docs(r, node.children[i..], parentId, counter.n)
             == Docs(r, node.children, parentId, old(counter.n))
      invariant counter.n + Visited(r, node.children[i..]) == old(counter.n) + Visited(r, node.children)
    {
      assert node.children[i..] == [node.children[i]] + node.children[i + 1..];
      docs := WalkChild(r, node.children[i], node.children[i + 1..], parentId, counter, docs);
    }
  }

  /** The document of a component, by `_component_to_doc`. */
  method ReadComponent(ghost r: Reader, e: Element, parentId: string, n: nat) returns (doc: Option<Doc>)
    requires r.Imports() && IsComponent(e)
    ensures doc == r.Read(e, parentId, n) && r.component(e)
  {
    assert r.ImportsAt(e);
    doc := ComponentToDoc(e, Some(parentId), FallbackId(parentId, n), "");
    assert doc == r.Read(e, parentId, n);
  }

  /** What is yielded for a component with a document: the document, and the walk below it. */
  method WalkKept(ghost r: Reader, child: Element, ghost rest: seq<Element>, parentId: string, counter: Counter,
                  sofar: seq<Doc>, doc: Doc)
    returns (docs: seq<Doc>)
    requires r.Imports() && counter.n > 0 && r.Read(child, parentId, counter.n) == Some(doc)
    modifies counter
    ensures docs + Docs(r, rest, parentId, counter.n)
         == sofar + Docs(r, [child] + rest, parentId, old(counter.n) - 1)
    ensures counter.n + Visited(r, rest) == old(counter.n) - 1 + Visited(r, [child] + rest)
    decreases child, 2
  {
    ghost var n := counter.n - 1;
    var below := Walk(r, child, doc.id, counter);
    docs := sofar + [doc] + below;
    KeptTurn(r, child, rest, parentId, n, sofar, doc, below);
  }

  /** One turn of the loop in `_walk`. */
  method WalkChild(ghost r: Reader, child: Element, ghost rest: seq<Element>, parentId: string, counter: Counter,
                   sofar: seq<Doc>)
    returns (docs: seq<Doc>)
    requires r.Imports()
    modifies counter
    ensures docs + Docs(r, rest, parentId, counter.n) == sofar + Docs(r, [child] + rest, parentId, old(counter.n))
    ensures counter.n + Visited(r, rest) == old(counter.n) + Visited(r, [child] + rest)
    decreases child, 3
  {
    docs := sofar;
    ghost var n := counter.n;
    if IsComponent(child) {
      counter.n := counter.n + 1;
      var doc := ReadComponent(r, child, parentId, counter.n);
      SkipUnless(r, child, rest, parentId, n, doc);
      if doc.Some? {
        docs := WalkKept(r, child, rest, parentId, counter, sofar, doc.value);
      }
    } else {
      assert r.ImportsAt(child);
      SkipTurn(r, child, rest, parentId, n);
    }
  }

  /** The element `iter_ead_docs` starts from. */
  function Archdesc(root: Element): Option<Element> {
    if root.tag == "ead" then FirstChild(root.children, "archdesc") else FindLocal([root], "archdesc")
  }

  function RootDoc(archdesc: Element): Option<Doc> {
    ComponentToDoc(archdesc, None, "archdesc-root", Or(archdesc.level, "fonds"))
  }

  /** The elements the walk starts with: the children of the first `dsc`. */
  function TopComponents(archdesc: Element): seq<Element> {
    var dsc := FirstChild(archdesc.children, "dsc");
    if dsc.Some? then dsc.value.children else []
  }

  function AllDocs(root: Element): seq<Doc> {
    var archdesc := Archdesc(root);
    if archdesc.None? || RootDoc(archdesc.value).None? then []
    else
      var doc := RootDoc(archdesc.value).value;
      [doc] + Docs(EAD, TopComponents(archdesc.value), doc.id, 0)
  }

  /** `iter_ead_docs` */
  method IterEadDocs(root: Element) returns (docs: seq<Doc>)
    ensures docs == AllDocs(root)
  {
    var archdesc: Option<Element>;
    if root.tag == "ead" {
      archdesc := FirstChild(root.children, "archdesc");
    } else if root.tag == "archdesc" {
      archdesc := Some(root);
    } else {
      archdesc := FindLocal([root], "archdesc");
    }
    if archdesc.None? {
      return [];
    }
    var doc := RootDoc(archdesc.value);
    if doc.None? {
      return [];
    }
    docs := [doc.value];
    var dsc := FirstChild(archdesc.value.children, "dsc");
    if dsc.None? {
      return;
    }
    var counter := new Counter();
    EadImports();
    var below := Walk(EAD, dsc.value, doc.value.id, counter);
    docs := docs + below;
  }

  // ---------------------------------------------------------------- parents

  predicate Names(docs: seq<Doc>, k: nat, id: string) {
    exists j :: 0 <= j < k && j < |docs| && docs[j].id == id
  }

  /** Every parent id is the given root or the id of an earlier document. */
  predicate ParentsEarlier(docs: seq<Doc>, root: string) {
    forall k :: 0 <= k < |docs| ==>
      docs[k].parentId.Some? && (docs[k].parentId.value == root || Names(docs, k, docs[k].parentId.value))
  }

  lemma ParentsJoin(doc: Doc, below: seq<Doc>, rest: seq<Doc>, root: string)
    requires doc.parentId == Some(root) && ParentsEarlier(below, doc.id) && ParentsEarlier(rest, root)
    ensures ParentsEarlier([doc] + below + rest, root)
  {
    var docs := [doc] + below + rest;
    forall k | 0 <= k < |docs|
      ensures docs[k].parentId.Some? && (docs[k].parentId.value == root || Names(docs, k, docs[k].parentId.value))
    {
      if 1 <= k <= |below| {
        EarlierBelow(doc, below, rest, k - 1);
      } else if k > |below| {
        EarlierRest(doc, below, rest, root, k - 1 - |below|);
      }
    }
  }

  lemma EarlierBelow(doc: Doc, below: seq<Doc>, rest: seq<Doc>, k: nat)
    requires ParentsEarlier(below, doc.id) && k < |below|
    ensures below[k].parentId.Some? && Names([doc] + below + rest, k + 1, below[k].parentId.value)
  {
    var docs := [doc] + below + rest;
    if below[k].parentId.value == doc.id {
      assert docs[0].id == doc.id;
    } else {
      var j :| 0 <= j < k && below[j].id == below[k].parentId.value;
      assert docs[j + 1] == below[j];
    }
  }

  lemma EarlierRest(doc: Doc, below: seq<Doc>, rest: seq<Doc>, root: string, k: nat)
    requires ParentsEarlier(rest, root) && k < |rest|
    ensures rest[k].parentId.Some?
    ensures rest[k].parentId.value == root || Names([doc] + below + rest, 1 + |below| + k, rest[k].parentId.value)
  {
    var docs := [doc] + below + rest;
    if rest[k].parentId.value != root {
      var j :| 0 <= j < k && rest[j].id == rest[k].parentId.value;
      assert docs[1 + |below| + j] == rest[j];
    }
  }

  lemma {:induction false} WalkParents(r: Reader, elements: seq<Element>, parentId: string, n: nat)
    ensures ParentsEarlier(Docs(r, elements, parentId, n), parentId)
  {
    if elements != [] {
      var e := elements[0];
      assert elements[0..] == elements;
      if r.Kept(e) {
        var doc, m := r.DocOf(e, parentId, n + 1), n + 1 + Visited(r, e.children);
        WalkParents(r, e.children, doc.id, n + 1);
        WalkParents(r, elements[1..], parentId, m);
        KeptParents(r, elements, parentId, n);
      } else {
        SkipChild(r, elements, 0, parentId, n);
        WalkParents(r, elements[1..], parentId, if r.component(e) then n + 1 else n);
      }
    }
  }

  lemma KeptParents(r: Reader, elements: seq<Element>, parentId: string, n: nat)
    requires elements != [] && r.Kept(elements[0])
    requires var doc := r.DocOf(elements[0], parentId, n + 1);
      ParentsEarlier(Docs(r, elements[0].children, doc.id, n + 1), doc.id)
    requires ParentsEarlier(Docs(r, elements[1..], parentId, n + 1 + Visited(r, elements[0].children)), parentId)
    ensures ParentsEarlier(Docs(r, elements, parentId, n), parentId)
  {
    var e := elements[0];
    var doc, m := r.DocOf(e, parentId, n + 1), n + 1 + Visited(r, e.children);
    ParentsJoin(doc, Docs(r, e.children, doc.id, n + 1), Docs(r, elements[1..], parentId, m), parentId);
    assert elements[0..] == elements;
    KeepChild(r, elements, 0, parentId, n);
  }

  /** Reading the documents in order, a parent always comes before its children; only the first has none. */
  lemma ParentComesFirst(root: Element, k: nat)
    requires 0 < k < |AllDocs(root)|
    ensures var docs := AllDocs(root);
      docs[0].parentId.None? && docs[k].parentId.Some? && Names(docs, k, docs[k].parentId.value)
  {
    var docs := AllDocs(root);
    var archdesc := Archdesc(root).value;
    WalkParents(EAD, TopComponents(archdesc), docs[0].id, 0);
    var below := docs[1..];
    if below[k - 1].parentId.value != docs[0].id {
      var j :| 0 <= j < k - 1 && below[j].id == below[k - 1].parentId.value;
      assert docs[j + 1] == below[j];
    }
  }

  // ---------------------------------------------------------------- generated ids

  /** Document by document: the counter its id was generated from, or None if it carries an id of its own. */
  function Marks(r: Reader, elements: seq<Element>, n: nat): seq<Option<nat>> {
    if elements == [] then []
    else
      var e := elements[0];
      if r.Kept(e) then
        [if r.ownId(e) == "" then Some(n + 1) else None]
        + Marks(r, e.children, n + 1) + Marks(r, elements[1..], n + 1 + Visited(r, e.children))
      else
        Marks(r, elements[1..], if r.component(e) then n + 1 else n)
  }

  predicate MarksHold(docs: seq<Doc>, marks: seq<Option<nat>>) {
    && |marks| == |docs|
    && forall k :: 0 <= k < |docs| && marks[k].Some? ==>
         docs[k].parentId.Some? && docs[k].id == FallbackId(docs[k].parentId.value, marks[k].value)
  }

  /** Every mark lies above `from` and not above `to`, and no two are equal. */
  predicate MarksApart(marks: seq<Option<nat>>, from: nat, to: nat) {
    && (forall k :: 0 <= k < |marks| && marks[k].Some? ==> from < marks[k].value <= to)
    && (forall j, k :: 0 <= j < k < |marks| && marks[j].Some? && marks[k].Some? ==> marks[j].value < marks[k].value)
  }

  lemma MarksJoin(first: Option<nat>, below: seq<Option<nat>>, rest: seq<Option<nat>>, n: nat, m: nat, to: nat)
    requires first.Some? ==> first.value == n + 1
    requires MarksApart(below, n + 1, m) && MarksApart(rest, m, to) && n + 1 <= m <= to
    ensures MarksApart([first] + below + rest, n, to)
  {
  }

  lemma HoldJoin(doc: Doc, below: seq<Doc>, rest: seq<Doc>, mark: Option<nat>,
                 belowMarks: seq<Option<nat>>, restMarks: seq<Option<nat>>)
    requires MarksHold([doc], [mark]) && MarksHold(below, belowMarks) && MarksHold(rest, restMarks)
    ensures MarksHold([doc] + below + rest, [mark] + belowMarks + restMarks)
  {
    assert [doc][0] == doc && [mark][0] == mark;
  }

  lemma {:induction false} WalkMarks(r: Reader, elements: seq<Element>, parentId: string, n: nat)
    ensures MarksHold(Docs(r, elements, parentId, n), Marks(r, elements, n))
    ensures MarksApart(Marks(r, elements, n), n, n + Visited(r, elements))
  {
    if elements != [] {
      var e := elements[0];
      if r.Kept(e) {
        var doc, m := r.DocOf(e, parentId, n + 1), n + 1 + Visited(r, e.children);
        var mark := if r.ownId(e) == "" then Some(n + 1) else None;
        WalkMarks(r, e.children, doc.id, n + 1);
        WalkMarks(r, elements[1..], parentId, m);
        MarksJoin(mark, Marks(r, e.children, n + 1), Marks(r, elements[1..], m), n, m, n + Visited(r, elements));
        HoldJoin(doc, Docs(r, e.children, doc.id, n + 1), Docs(r, elements[1..], parentId, m), mark,
                 Marks(r, e.children, n + 1), Marks(r, elements[1..], m));
      } else {
        WalkMarks(r, elements[1..], parentId, if r.component(e) then n + 1 else n);
      }
    }
  }

  lemma DashNotPast(a: string, m: string, b: string, n: string)
    requires a + "-" + m == b + "-" + n && '-' !in m
    ensures |b| <= |a|
  {
    var s := a + "-" + m;
    assert s == b + "-" + n && s[|b|] == '-';
    assert forall k :: |a| < k < |s| ==> s[k] == m[k - |a| - 1];
  }

  /** A generated id tells the counter it was made from, whatever the parent's id looks like. */
  lemma FallbackTells(p: string, m: nat, q: string, n: nat)
    requires FallbackId(p, m) == FallbackId(q, n)
    ensures p == q && m == n
  {
    NoDash(m);
    NoDash(n);
    DashNotPast(p, Dec(m), q, Dec(n));
    DashNotPast(q, Dec(n), p, Dec(m));
    var s := FallbackId(p, m);
    assert s[..|p|] == p && s[..|q|] == q && s[|p| + 1..] == Dec(m) && s[|q| + 1..] == Dec(n);
    ValueDec(m);
    ValueDec(n);
  }

  lemma NoDash(n: nat)
    ensures '-' !in Dec(n)
  {
    assert forall k :: 0 <= k < |Dec(n)| ==> Dec(n)[k] != '-';
  }

  /** No two ids generated for one finding aid are equal, wherever in the tree they were generated. */
  lemma GeneratedIdsDistinct(r: Reader, elements: seq<Element>, parentId: string, j: nat, k: nat)
    requires j < k < |Marks(r, elements, 0)| && Marks(r, elements, 0)[j].Some? && Marks(r, elements, 0)[k].Some?
    ensures |Docs(r, elements, parentId, 0)| == |Marks(r, elements, 0)|
    ensures Docs(r, elements, parentId, 0)[j].id != Docs(r, elements, parentId, 0)[k].id
  {
    var docs, marks := Docs(r, elements, parentId, 0), Marks(r, elements, 0);
    WalkMarks(r, elements, parentId, 0);
    assert marks[j].value < marks[k].value;
    if docs[j].id == docs[k].id {
      FallbackTells(docs[j].parentId.value, marks[j].value, docs[k].parentId.value, marks[k].value);
    }
  }
}
