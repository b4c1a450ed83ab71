/** What the documents of a finding aid say, read off its elements (app/importers/ead.py). */
module EadContent {
  import opened Wrappers
  import opened Text
  import opened Gathering
  import opened Ead

  // ---------------------------------------------------------------- elements in reading order

  /** The elements and everything in them, in reading order. */
  function Reading(elements: seq<Element>): seq<Element> {
    if elements == [] then [] else [elements[0]] + Reading(elements[0].children) + Reading(elements[1..])
  }

  predicate IsFirst(all: seq<Element>, tag: string, k: nat) {
    k < |all| && all[k].tag == tag && forall j :: 0 <= j < k ==> all[j].tag != tag
  }

  predicate HasNone(all: seq<Element>, tag: string) {
    forall j :: 0 <= j < |all| ==> all[j].tag != tag
  }

  /** `found` is the first of these elements with the tag, if there is one. */
  ghost predicate FirstOf(all: seq<Element>, tag: string, found: Option<Element>) {
    match found
    case None => HasNone(all, tag)
    case Some(e) => exists k: nat :: IsFirst(all, tag, k) && all[k] == e
  }

  lemma FirstHead(all: seq<Element>, tag: string)
    requires all != [] && all[0].tag == tag
    ensures FirstOf(all, tag, Some(all[0]))
  {
    assert IsFirst(all, tag, 0);
  }

  lemma FirstIn(before: seq<Element>, part: seq<Element>, rest: seq<Element>, tag: string, found: Option<Element>)
    requires HasNone(before, tag) && FirstOf(part, tag, found) && found.Some?
    ensures FirstOf(before + part + rest, tag, found)
  {
    var all := before + part + rest;
    var k: nat :| IsFirst(part, tag, k) && part[k] == found.value;
    assert all[|before| + k] == part[k];
    forall j | 0 <= j < |before| + k ensures all[j].tag != tag {
      assert all[j] == if j < |before| then before[j] else part[j - |before|];
    }
    assert IsFirst(all, tag, |before| + k);
  }

  lemma NoneIn(a: seq<Element>, b: seq<Element>, tag: string)
    requires HasNone(a, tag) && HasNone(b, tag)
    ensures HasNone(a + b, tag)
  {
  }

  /** `_find_local` finds the first element of that name in reading order. */
  lemma {:induction false} FindLocalFirst(elements: seq<Element>, tag: string)
    ensures FirstOf(Reading(elements), tag, FindLocal(elements, tag))
  {
    if elements != [] {
      var e, rest := elements[0], elements[1..];
      var inside, after := Reading(e.children), Reading(rest);
      assert Reading(elements) == [e] + inside + after;
      if e.tag == tag {
        FirstHead(Reading(elements), tag);
      } else {
        FindLocalFirst(e.children, tag);
        FindLocalFirst(rest, tag);
        if FindLocal(e.children, tag).Some? {
          FirstIn([e], inside, after, tag, FindLocal(e.children, tag));
        } else {
          NoneIn([e], inside, tag);
          if FindLocal(rest, tag).Some? {
            FirstIn([e] + inside, after, [], tag, FindLocal(rest, tag));
            assert [e] + inside + after + [] == [e] + inside + after;
          } else {
            NoneIn([e] + inside, after, tag);
          }
        }
      }
    }
  }

  lemma {:induction false} FirstChildFirst(children: seq<Element>, tag: string)
    ensures FirstOf(children, tag, FirstChild(children, tag))
  {
    if children != [] {
      if children[0].tag == tag {
        FirstHead(children, tag);
      } else {
        FirstChildFirst(children[1..], tag);
        assert children == [children[0]] + children[1..];
        if FirstChild(children[1..], tag).Some? {
          FirstIn([children[0]], children[1..], [], tag, FirstChild(children[1..], tag));
          assert [children[0]] + children[1..] + [] == children;
        } else {
          NoneIn([children[0]], children[1..], tag);
        }
      }
    }
  }

  // ---------------------------------------------------------------- one component

  /** The text of the first element of that name in a `did`, in reading order; empty without one. */
  ghost predicate FirstText(did: Element, tag: string, text: string) {
    exists found :: FirstOf(Reading([did]), tag, found) && text == (if found.Some? then found.value.text else "")
  }

  /** The id of a description: the unitid, else the attributes of the `did`, else the fallback. */
  ghost predicate IsIdOf(did: Element, fallback: string, id: string) {
    exists unit: string :: FirstText(did, "unitid", unit) && id == (
      if unit != "" then unit else if did.id != "" then did.id else if did.xmlId != "" then did.xmlId else fallback)
  }

  /** The level attribute without blanks around it; `component` only where nothing is left of it. */
  ghost predicate IsLevelOf(e: Element, level: string) {
    exists own: string :: StripsTo(e.level, own) && level == (if own != "" then own else "component")
  }

  lemma FirstTextFound(did: Element, tag: string)
    ensures FirstText(did, tag, TextOf(FindLocal([did], tag)))
  {
    FindLocalFirst([did], tag);
  }

  /** What the document of a component says. */
  ghost predicate Describes(doc: Doc, e: Element, did: Element, parentId: Option<string>, fallback: string) {
    && doc.parentId == parentId && IsIdOf(did, fallback, doc.id)
    && IsLevelOf(e, doc.level) && FirstText(did, "unittitle", doc.title)
  }

  /**
   A component has a document exactly when it has a `did`, and then the document holds the id, the title and the level
   that the first `did` and the level attribute give it.
   */
  lemma ComponentContent(e: Element, parentId: Option<string>, fallback: string)
    requires fallback != ""
    ensures match ComponentToDoc(e, parentId, fallback, "")
      case None => HasNone(e.children, "did")
      case Some(doc) =>
        exists did :: FirstOf(e.children, "did", Some(did)) && Describes(doc, e, did, parentId, fallback)
  {
    FirstChildFirst(e.children, "did");
    var found := FirstChild(e.children, "did");
    if found.Some? {
      var did, doc := found.value, ComponentToDoc(e, parentId, fallback, "").value;
      IdRead(did, fallback);
      LevelRead(e);
      FirstTextFound(did, "unittitle");
      assert Describes(doc, e, did, parentId, fallback);
    }
  }

  lemma IdRead(did: Element, fallback: string)
    ensures IsIdOf(did, fallback, BestId(did, fallback))
  {
    FirstTextFound(did, "unitid");
    var unit := TextOf(FindLocal([did], "unitid"));
    assert FirstText(did, "unitid", unit);
  }

  lemma LevelRead(e: Element)
    ensures IsLevelOf(e, LevelOf(e, ""))
  {
    StripMeans(e.level);
  }

  /** The root: its level attribute as it stands, or `fonds`, and `archdesc-root` where it has no id. */
  lemma RootContent(archdesc: Element)
    ensures match RootDoc(archdesc)
      case None => HasNone(archdesc.children, "did")
      case Some(doc) =>
        && doc.parentId.None? && doc.level == (if archdesc.level != "" then archdesc.level else "fonds")
        && exists did :: FirstOf(archdesc.children, "did", Some(did)) && IsIdOf(did, "archdesc-root", doc.id)
             && FirstText(did, "unittitle", doc.title)
  {
    FirstChildFirst(archdesc.children, "did");
    var found := FirstChild(archdesc.children, "did");
    if found.Some? {
      var did := found.value;
      IdRead(did, "archdesc-root");
      FirstTextFound(did, "unittitle");
      assert FirstOf(archdesc.children, "did", Some(did));
    }
  }

  /** Where the archdesc and the components are looked for. */
  lemma RootsFound(root: Element)
    ensures FirstOf(if root.tag == "ead" then root.children else Reading([root]), "archdesc", Archdesc(root))
    ensures Archdesc(root).Some? ==>
      exists dsc :: FirstOf(Archdesc(root).value.children, "dsc", dsc)
        && TopComponents(Archdesc(root).value) == if dsc.Some? then dsc.value.children else []
  {
    FirstChildFirst(root.children, "archdesc");
    FindLocalFirst([root], "archdesc");
    if Archdesc(root).Some? {
      FirstChildFirst(Archdesc(root).value.children, "dsc");
    }
  }

  // ---------------------------------------------------------------- the documents of the walk

  /** The components the walk visits: below a component only when it is described. */
  function Visits(r: Reader, elements: seq<Element>): seq<Element> {
    if elements == [] then []
    else
      var e := elements[0];
      (if r.component(e) then [e] + (if r.described(e) then Visits(r, e.children) else []) else [])
      + Visits(r, elements[1..])
  }

  /** The document of a visited component, if it is described: its number is its place among those visited. */
  function DocOfVisit(r: Reader, e: Element, parentId: string, number: nat): seq<Doc> {
    if r.described(e)
    then [Doc(if r.ownId(e) != "" then r.ownId(e) else FallbackId(parentId, number), r.level(e), r.title(e),
              Some(parentId))]
    else []
  }

  predicate VisitDocs(r: Reader, visits: seq<Element>, n: nat, parents: seq<string>, pieces: seq<seq<Doc>>) {
    && |parents| == |visits| == |pieces|
    && forall k :: 0 <= k < |visits| ==> pieces[k] == DocOfVisit(r, visits[k], parents[k], n + k + 1)
  }

  /** The documents are those of the visits, one for each that is described, in order. */
  ghost predicate DocsOfVisits(r: Reader, visits: seq<Element>, n: nat, docs: seq<Doc>) {
    exists parents, pieces :: VisitDocs(r, visits, n, parents, pieces) && Gathers(docs, pieces)
  }

  lemma VisitsJoin(r: Reader, a: seq<Element>, b: seq<Element>, n: nat, x: seq<Doc>, y: seq<Doc>)
    requires DocsOfVisits(r, a, n, x) && DocsOfVisits(r, b, n + |a|, y)
    ensures DocsOfVisits(r, a + b, n, x + y)
  {
    var ps, qs :| VisitDocs(r, a, n, ps, qs) && Gathers(x, qs);
    var us, vs :| VisitDocs(r, b, n + |a|, us, vs) && Gathers(y, vs);
    GathersJoin(x, y, qs, vs);
    PartsJoin(r, a, b, n, ps, qs, us, vs);
  }

  lemma PartsJoin(r: Reader, a: seq<Element>, b: seq<Element>, n: nat, ps: seq<string>, qs: seq<seq<Doc>>,
                  us: seq<string>, vs: seq<seq<Doc>>)
    requires VisitDocs(r, a, n, ps, qs) && VisitDocs(r, b, n + |a|, us, vs)
    ensures VisitDocs(r, a + b, n, ps + us, qs + vs)
  {
    forall k | 0 <= k < |a + b| ensures (qs + vs)[k] == DocOfVisit(r, (a + b)[k], (ps + us)[k], n + k + 1) {
      if k >= |a| {
        assert (qs + vs)[k] == vs[k - |a|] && n + k + 1 == n + |a| + (k - |a|) + 1;
      }
    }
  }

  lemma OneVisit(r: Reader, e: Element, parentId: string, n: nat)
    ensures DocsOfVisits(r, [e], n, DocOfVisit(r, e, parentId, n + 1))
  {
    var piece := DocOfVisit(r, e, parentId, n + 1);
    GathersSingle(piece);
    assert VisitDocs(r, [e], n, [parentId], [piece]);
  }

  lemma NoVisits(r: Reader, n: nat)
    ensures DocsOfVisits(r, [], n, [])
  {
    GathersNone<Doc>();
    assert VisitDocs(r, [], n, [], []);
  }

  lemma {:induction false} VisitedCounts(r: Reader, elements: seq<Element>)
    ensures |Visits(r, elements)| == Visited(r, elements)
  {
    if elements != [] {
      VisitedCounts(r, elements[0].children);
      VisitedCounts(r, elements[1..]);
    }
  }

  lemma VisitsKept(r: Reader, elements: seq<Element>, parentId: string, n: nat)
    requires elements != [] && r.Kept(elements[0])
    requires var e := elements[0];
      var doc, m := r.DocOf(e, parentId, n + 1), n + 1 + |Visits(r, e.children)|;
      && DocsOfVisits(r, Visits(r, e.children), n + 1, Docs(r, e.children, doc.id, n + 1))
      && DocsOfVisits(r, Visits(r, elements[1..]), m, Docs(r, elements[1..], parentId, m))
    ensures DocsOfVisits(r, Visits(r, elements), n, Docs(r, elements, parentId, n))
  {
    var e, rest := elements[0], elements[1..];
    var doc, m := r.DocOf(e, parentId, n + 1), n + 1 + |Visits(r, e.children)|;
    VisitedCounts(r, e.children);
    assert DocOfVisit(r, e, parentId, n + 1) == [doc];
    OneVisit(r, e, parentId, n);
    VisitsJoin(r, [e], Visits(r, e.children), n, [doc], Docs(r, e.children, doc.id, n + 1));
    VisitsJoin(r, [e] + Visits(r, e.children), Visits(r, rest), n, [doc] + Docs(r, e.children, doc.id, n + 1),
               Docs(r, rest, parentId, m));
    assert elements[0..] == elements;
    KeepChild(r, elements, 0, parentId, n);
  }

  /** The walk yields the documents of the components it visits, numbered from n + 1 on. */
  lemma {:induction false} WalkDocs(r: Reader, elements: seq<Element>, parentId: string, n: nat)
    ensures DocsOfVisits(r, Visits(r, elements), n, Docs(r, elements, parentId, n))
  {
    if elements == [] {
      NoVisits(r, n);
    } else {
      var e, rest := elements[0], elements[1..];
      if r.Kept(e) {
        WalkDocs(r, e.children, r.DocOf(e, parentId, n + 1).id, n + 1);
        WalkDocs(r, rest, parentId, n + 1 + |Visits(r, e.children)|);
        VisitsKept(r, elements, parentId, n);
      } else if r.component(e) {
        WalkDocs(r, rest, parentId, n + 1);
        OneVisit(r, e, parentId, n);
        VisitsJoin(r, [e], Visits(r, rest), n, [], Docs(r, rest, parentId, n + 1));
        assert [] + Docs(r, rest, parentId, n + 1) == Docs(r, rest, parentId, n + 1);
        assert [e] + [] + Visits(r, rest) == [e] + Visits(r, rest);
      } else {
        WalkDocs(r, rest, parentId, n);
        assert [] + Visits(r, rest) == Visits(r, rest);
      }
    }
  }
}
