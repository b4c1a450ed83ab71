/**
 What the index holds of a finding aid once its documents are written: `bulk_index` gives each its own id as `_id`, so
 a document replaces an earlier one of the same id (app/adapters/elasticsearch/adapter.py).
 */
module EadIndex {
  import opened Wrappers
  import opened Ead
  import opened EadPromises
  import opened EadTree

  /** The documents by `_id` after these have been written in order: a later one replaces an earlier one. */
  function Stored(docs: seq<Doc>): map<string, Doc> {
    if docs == [] then map[] else map[docs[0].id := docs[0]] + Stored(docs[1..])
  }

  predicate HasId(docs: seq<Doc>, id: string) {
    exists k :: 0 <= k < |docs| && docs[k].id == id
  }

  /** The documents that are not replaced, in the order of writing. */
  function Indexed(docs: seq<Doc>): seq<Doc> {
    if docs == [] then []
    else if HasId(docs[1..], docs[0].id) then Indexed(docs[1..])
    else [docs[0]] + Indexed(docs[1..])
  }

  lemma HasIdCons(docs: seq<Doc>, id: string)
    requires docs != []
    ensures HasId(docs, id) <==> docs[0].id == id || HasId(docs[1..], id)
  {
    if k :| 0 <= k < |docs[1..]| && docs[1..][k].id == id {
      assert docs[k + 1].id == id;
    }
    if k :| 0 <= k < |docs| && docs[k].id == id {
      assert k > 0 ==> docs[1..][k - 1].id == id;
    }
  }

  lemma {:induction false} IndexedHasId(docs: seq<Doc>, id: string)
    ensures HasId(Indexed(docs), id) <==> HasId(docs, id)
  {
    if docs != [] {
      IndexedHasId(docs[1..], id);
      HasIdCons(docs, id);
      if !HasId(docs[1..], docs[0].id) {
        assert Indexed(docs)[1..] == Indexed(docs[1..]);
        HasIdCons(Indexed(docs), id);
      }
    }
  }

  lemma DistinctCons(d: Doc, docs: seq<Doc>)
    requires DistinctIds(docs) && !HasId(docs, d.id)
    ensures DistinctIds([d] + docs)
  {
  }

  lemma {:induction false} IndexedDistinct(docs: seq<Doc>)
    ensures DistinctIds(Indexed(docs))
  {
    if docs != [] {
      IndexedDistinct(docs[1..]);
      IndexedHasId(docs[1..], docs[0].id);
      if !HasId(docs[1..], docs[0].id) {
        DistinctCons(docs[0], Indexed(docs[1..]));
      }
    }
  }

  /** These are the documents the index holds. */
  lemma {:induction false} IndexedIsStored(docs: seq<Doc>, d: Doc)
    ensures d.id in Stored(docs) <==> HasId(docs, d.id)
    ensures d in Indexed(docs) <==> d.id in Stored(docs) && Stored(docs)[d.id] == d
  {
    if docs != [] {
      IndexedIsStored(docs[1..], d);
      HasIdCons(docs, d.id);
      if d.id == docs[0].id && d in Indexed(docs[1..]) {
        IndexedHasId(docs[1..], d.id);
      }
    }
  }

  lemma {:induction false} IndexedShorter(docs: seq<Doc>)
    ensures |Indexed(docs)| <= |docs|
    ensures |Indexed(docs)| == |docs| <==> DistinctIds(docs)
    ensures DistinctIds(docs) ==> Indexed(docs) == docs
  {
    if docs != [] {
      IndexedShorter(docs[1..]);
      assert docs == [docs[0]] + docs[1..];
      if HasId(docs[1..], docs[0].id) {
        var k :| 0 <= k < |docs[1..]| && docs[1..][k].id == docs[0].id;
        assert docs[0].id == docs[k + 1].id;
      } else if DistinctIds(docs[1..]) {
        DistinctCons(docs[0], docs[1..]);
      } else {
        TailDistinct(docs);
      }
    }
  }

  lemma TailDistinct(docs: seq<Doc>)
    requires docs != []
    ensures DistinctIds(docs) ==> DistinctIds(docs[1..])
  {
  }

  // ---------------------------------------------------------------- what is built of them

  lemma {:induction false} NoParentIn(before: seq<Doc>, d: Doc)
    requires forall k :: 0 <= k < |before| ==> !PointsTo(d, before[k].id)
    ensures ParentsIn(before, d) == 0
  {
    if before != [] {
      NoParentIn(before[..|before| - 1], d);
    }
  }

  /** Of documents with distinct ids at most one is the parent. */
  lemma {:induction false} OneParentIn(before: seq<Doc>, d: Doc)
    requires DistinctIds(before)
    ensures ParentsIn(before, d) <= 1
  {
    if before != [] {
      var init, last := before[..|before| - 1], before[|before| - 1];
      OneParentIn(init, d);
      if PointsTo(d, last.id) {
        NoParentIn(init, d);
      }
    }
  }

  /** A document with one parent is built once, with all that is below it; without one it is not built. */
  lemma {:induction false} BuiltUnder(d: Doc, docs: seq<Doc>, before: seq<Doc>)
    requires ParentsIn(before, d) <= 1
    ensures BuiltBelow([d] + docs, before)
      == BuiltBelow(docs, before) + (if ParentsIn(before, d) == 0 then 0 else 1 + Built(docs, d.id))
  {
    if before != [] {
      BuiltUnder(d, docs, before[..|before| - 1]);
      BuiltCons(d, docs, before[|before| - 1].id);
    }
  }

  lemma PartDistinct(docs: seq<Doc>, i: nat)
    requires DistinctIds(docs) && i <= |docs|
    ensures DistinctIds(docs[..i])
  {
  }

  /** Of documents with distinct ids none is built twice. */
  lemma {:induction false} BuiltAtMost(docs: seq<Doc>, i: nat)
    requires i <= |docs| && DistinctIds(docs)
    ensures BuiltBelow(docs[i..], docs[..i]) <= |docs| - i
    decreases |docs| - i
  {
    if i < |docs| {
      var d, after := docs[i], docs[i + 1..];
      BuiltAtMost(docs, i + 1);
      assert docs[i..] == [d] + after && docs[..i + 1] == docs[..i] + [d];
      PartDistinct(docs, i);
      OneParentIn(docs[..i], d);
      BuiltUnder(d, after, docs[..i]);
      BuiltSnoc(after, docs[..i], d);
    } else {
      NothingBuilt(docs[..i]);
    }
  }

  lemma {:induction false} NothingBuilt(before: seq<Doc>)
    ensures BuiltBelow([], before) == 0
  {
    if before != [] {
      NothingBuilt(before[..|before| - 1]);
      assert Build([], before[|before| - 1].id) == [];
    }
  }

  lemma BuiltBelowFirst(docs: seq<Doc>)
    requires docs != [] && DistinctIds(docs)
    ensures Built(docs[1..], docs[0].id) <= |docs| - 1
  {
    BuiltAtMost(docs, 1);
    assert docs[..1] == [] + [docs[0]];
    BuiltSnoc(docs[1..], [], docs[0]);
  }

  // ---------------------------------------------------------------- the finding aid, from the index

  /** Following the parent ids within the index gives the tree of these documents. */
  predicate Rebuilds(indexed: seq<Doc>, root: Doc, walked: seq<Tree>) {
    indexed != [] && indexed[0] == root && Build(indexed[1..], root.id) == walked
  }

  lemma RebuildsOnlyAll(docs: seq<Doc>, walked: seq<Tree>)
    requires docs != [] && Preorder(walked) == docs[1..] && Rebuilds(Indexed(docs), docs[0], walked)
    ensures DistinctIds(docs)
  {
    IndexedDistinct(docs);
    BuiltBelowFirst(Indexed(docs));
    IndexedShorter(docs);
  }

  /**
   What clients can do. The index gives back the walked tree, with every described component nested as in the finding
   aid, if and only if no two documents of the finding aid have the same id.
   */
  lemma IndexRebuildsIff(root: Element)
    requires AllDocs(root) != []
    ensures var docs := AllDocs(root);
      var elements := TopComponents(Archdesc(root).value);
      var walked := Forest(EAD, elements, docs[0].id, 0);
      && Preorder(walked) == docs[1..] && Shapes(walked) == Described(EAD, elements)
      && (Rebuilds(Indexed(docs), docs[0], walked) <==> DistinctIds(docs))
  {
    var docs := AllDocs(root);
    var walked := Forest(EAD, TopComponents(Archdesc(root).value), docs[0].id, 0);
    FlatteningRebuildsIff(root);
    if DistinctIds(docs) {
      IndexedShorter(docs);
      DistinctIdsRebuild(root);
    } else if Rebuilds(Indexed(docs), docs[0], walked) {
      RebuildsOnlyAll(docs, walked);
    }
  }

  /** Two components without anything below them. */
  function Twins(): Element {
    FindingAid([Component("x", []), Component("x", [])])
  }

  lemma TwinDocs()
    ensures AllDocs(Twins()) == [Doc("r", "fonds", "", None), DocNamed("x", "r"), DocNamed("x", "r")]
  {
    ComponentReadAs("x", []);
    ReadTwo(EAD, Component("x", []), Component("x", []), "x", "x", "r", 0);
    RootFacts([Component("x", []), Component("x", [])]);
  }

  lemma TwinList(docs: seq<Doc>, twin: Doc)
    requires |docs| == 3 && docs[1] == docs[2] == twin && twin.id != docs[0].id && PointsTo(twin, docs[0].id)
    ensures forall k :: 1 <= k < |docs| ==> HasOneParent(docs, k)
    ensures !DistinctIds(docs) && |Indexed(docs)| < |docs|
  {
    assert IsParent(docs, 0, 1) && IsParent(docs, 0, 2);
    assert docs[1].id == docs[2].id;
    IndexedShorter(docs);
  }

  /** The list of their documents rebuilds the tree, the index has lost one of them. */
  lemma TwinsLost()
    ensures var docs := AllDocs(Twins());
      && (forall k :: 1 <= k < |docs| ==> HasOneParent(docs, k))
      && !DistinctIds(docs) && |Indexed(docs)| < |docs|
  {
    TwinDocs();
    TwinList([Doc("r", "fonds", "", None), DocNamed("x", "r"), DocNamed("x", "r")], DocNamed("x", "r"));
  }
}
