/** What a client can do with the flattened documents: follow the parent ids back to the tree. */
module EadTree {
  import opened Wrappers
  import opened Ead

  datatype Tree = Tree(doc: Doc, children: seq<Tree>)

  /** The tree of documents: the children of a document are the later ones that point to it. */
  function Build(docs: seq<Doc>, parentId: string): seq<Tree> {
    if docs == [] then []
    else
      (if docs[0].parentId == Some(parentId) then [Tree(docs[0], Build(docs[1..], docs[0].id))] else [])
      + Build(docs[1..], parentId)
  }

  /** Reading order: a document, what is below it, what comes next. */
  function Preorder(forest: seq<Tree>): seq<Doc> {
    if forest == [] then [] else [forest[0].doc] + Preorder(forest[0].children) + Preorder(forest[1..])
  }

  // ---------------------------------------------------------------- rebuilding

  predicate PointsTo(d: Doc, id: string) {
    d.parentId == Some(id)
  }

  predicate NonePoints(docs: seq<Doc>, id: string) {
    forall k :: 0 <= k < |docs| ==> !PointsTo(docs[k], id)
  }

  lemma {:induction false} BuildNone(docs: seq<Doc>, id: string)
    requires NonePoints(docs, id)
    ensures Build(docs, id) == []
  {
    if docs != [] {
      BuildNone(docs[1..], id);
    }
  }

  /** No document of b points to one of a. */
  predicate Apart(a: seq<Doc>, b: seq<Doc>) {
    forall k :: 0 <= k < |a| ==> NonePoints(b, a[k].id)
  }

  lemma BuildCons(d: Doc, docs: seq<Doc>, id: string)
    ensures Build([d] + docs, id)
      == (if PointsTo(d, id) then [Tree(d, Build(docs, d.id))] else []) + Build(docs, id)
  {
    assert ([d] + docs)[1..] == docs;
  }

  lemma BuildSplitStep(d: Doc, a: seq<Doc>, b: seq<Doc>, id: string)
    requires Build(a + b, id) == Build(a, id) + Build(b, id) && Build(a + b, d.id) == Build(a, d.id)
    ensures Build([d] + (a + b), id) == Build([d] + a, id) + Build(b, id)
  {
    BuildCons(d, a + b, id);
    BuildCons(d, a, id);
    var first := if PointsTo(d, id) then [Tree(d, Build(a, d.id))] else [];
    Regroup(first, Build(a, id), Build(b, id));
  }

  lemma Regroup(a: seq<Tree>, b: seq<Tree>, c: seq<Tree>)
    ensures a + (b + c) == a + b + c
  {
  }

  lemma {:induction false} BuildSplit(a: seq<Doc>, b: seq<Doc>, id: string)
    requires Apart(a, b)
    ensures Build(a + b, id) == Build(a, id) + Build(b, id)
  {
    if a == [] {
      assert a + b == b;
    } else {
      assert NonePoints(b, a[0].id);
      BuildSplit(a[1..], b, id);
      BuildSplit(a[1..], b, a[0].id);
      BuildNone(b, a[0].id);
      BuildSplitStep(a[0], a[1..], b, id);
      assert [a[0]] + a[1..] == a && [a[0]] + (a[1..] + b) == a + b;
    }
  }

  /** In a forest hanging from an id every child points to its parent. */
  predicate Linked(forest: seq<Tree>, parentId: string) {
    forest == [] || (
      && PointsTo(forest[0].doc, parentId)
      && Linked(forest[0].children, forest[0].doc.id)
      && Linked(forest[1..], parentId))
  }

  /** No document points to two earlier ones. */
  predicate OneParentAtMost(docs: seq<Doc>) {
    forall i, j, k :: 0 <= i < j < k < |docs| && PointsTo(docs[k], docs[i].id) ==> !PointsTo(docs[k], docs[j].id)
  }

  lemma {:induction false} LinkedParents(forest: seq<Tree>, parentId: string)
    requires Linked(forest, parentId)
    ensures ParentsEarlier(Preorder(forest), parentId)
  {
    if forest != [] {
      LinkedParents(forest[0].children, forest[0].doc.id);
      LinkedParents(forest[1..], parentId);
      ParentsJoin(forest[0].doc, Preorder(forest[0].children), Preorder(forest[1..]), parentId);
    }
  }

  /** A part of the list, taken in order, has no more parents than the whole. */
  lemma PartOneParent(docs: seq<Doc>, part: seq<Doc>, at: nat -> nat)
    requires OneParentAtMost(docs)
    requires forall k: nat :: k < |part| ==> at(k) < |docs| && docs[at(k)] == part[k]
    requires forall j: nat, k: nat :: j < k < |part| ==> at(j) < at(k)
    ensures OneParentAtMost(part)
  {
    forall i, j, k | 0 <= i < j < k < |part| && PointsTo(part[k], part[i].id) ensures !PointsTo(part[k], part[j].id) {
      assert docs[at(i)] == part[i] && docs[at(j)] == part[j] && docs[at(k)] == part[k];
      assert at(i) < at(j) < at(k);
    }
  }

  lemma Parts(h: Doc, d: Doc, below: seq<Doc>, rest: seq<Doc>)
    ensures var all := [h] + ([d] + below + rest);
      && all[0] == h && all[1] == d && |all| == 2 + |below| + |rest|
      && (forall k :: 0 <= k < |below| ==> all[2 + k] == below[k])
      && (forall k :: 0 <= k < |rest| ==> all[2 + |below| + k] == rest[k])
  {
  }

  lemma OneParentBelow(h: Doc, d: Doc, below: seq<Doc>, rest: seq<Doc>)
    requires OneParentAtMost([h] + ([d] + below + rest))
    ensures OneParentAtMost([d] + below)
  {
    Parts(h, d, below, rest);
    PartOneParent([h] + ([d] + below + rest), [d] + below, (k: nat) => k + 1);
  }

  lemma OneParentRest(h: Doc, d: Doc, below: seq<Doc>, rest: seq<Doc>)
    requires OneParentAtMost([h] + ([d] + below + rest))
    ensures OneParentAtMost([h] + rest)
  {
    var at := (k: nat) => PastBelow(|below|, k);
    forall k: nat | k < |[h] + rest|
      ensures at(k) < |[h] + ([d] + below + rest)| && ([h] + ([d] + below + rest))[at(k)] == ([h] + rest)[k]
    {
      PastBelowAt(h, d, below, rest, k);
    }
    PartOneParent([h] + ([d] + below + rest), [h] + rest, at);
  }

  /** Where the k-th of a list without its second tree, which has so many documents below its root, is in the whole. */
  function PastBelow(below: nat, k: nat): nat {
    if k == 0 then 0 else k + 1 + below
  }

  lemma PastBelowAt(h: Doc, d: Doc, below: seq<Doc>, rest: seq<Doc>, k: nat)
    requires k < |[h] + rest|
    ensures var all, i := [h] + ([d] + below + rest), PastBelow(|below|, k);
      i < |all| && all[i] == ([h] + rest)[k]
  {
    Parts(h, d, below, rest);
    if k > 0 {
      assert ([h] + rest)[k] == rest[k - 1];
    }
  }

  /** What comes after a tree does not point into it, and what is in it does not point past its root. */
  lemma PartsApart(h: Doc, d: Doc, below: seq<Doc>, rest: seq<Doc>)
    requires OneParentAtMost([h] + ([d] + below + rest))
    requires ParentsEarlier(below, d.id) && ParentsEarlier(rest, h.id)
    ensures Apart(below, rest) && NonePoints(rest, d.id) && NonePoints(below, h.id)
  {
    var all := [h] + ([d] + below + rest);
    Parts(h, d, below, rest);
    forall k | 0 <= k < |below| ensures !PointsTo(below[k], h.id) {
      OwnOnly(all, below, 2, 1, k, 0);
    }
    forall k | 0 <= k < |rest| ensures !PointsTo(rest[k], d.id) {
      OwnOnly(all, rest, 2 + |below|, 0, k, 1);
    }
    forall j, k | 0 <= j < |below| && 0 <= k < |rest| ensures !PointsTo(rest[k], below[j].id) {
      OwnOnly(all, rest, 2 + |below|, 0, k, 2 + j);
    }
  }

  /** Where the parent of a document of a part is in the whole: the root of the part, or within it. */
  lemma Own(all: seq<Doc>, part: seq<Doc>, from: nat, root: nat, k: nat) returns (i: nat)
    requires root < from && from + |part| <= |all| && forall j :: 0 <= j < |part| ==> all[from + j] == part[j]
    requires ParentsEarlier(part, all[root].id) && k < |part|
    ensures (i == root || from <= i < from + k) && PointsTo(all[from + k], all[i].id)
  {
    if part[k].parentId.value == all[root].id {
      i := root;
    } else {
      var j :| 0 <= j < k && part[j].id == part[k].parentId.value;
      i := from + j;
      assert all[from + j] == part[j];
    }
  }

  /** So it points to nothing else before the part. */
  lemma OwnOnly(all: seq<Doc>, part: seq<Doc>, from: nat, root: nat, k: nat, t: nat)
    requires root < from && from + |part| <= |all| && forall j :: 0 <= j < |part| ==> all[from + j] == part[j]
    requires ParentsEarlier(part, all[root].id) && k < |part|
    requires OneParentAtMost(all) && t < from && t != root
    ensures !PointsTo(part[k], all[t].id)
  {
    var i := Own(all, part, from, root, k);
    assert all[from + k] == part[k];
    NoSecondParent(all, i, t, from + k);
  }

  lemma NoSecondParent(docs: seq<Doc>, i: int, j: int, k: int)
    requires OneParentAtMost(docs) && 0 <= i < k < |docs| && 0 <= j < k && i != j && PointsTo(docs[k], docs[i].id)
    ensures !PointsTo(docs[k], docs[j].id)
  {
  }

  lemma BuildFirst(d: Doc, below: seq<Doc>, rest: seq<Doc>, id: string)
    requires PointsTo(d, id) && Apart(below, rest) && NonePoints(rest, d.id) && NonePoints(below, id)
    ensures Build([d] + below + rest, id) == [Tree(d, Build(below, d.id))] + Build(rest, id)
  {
    BuildSplit(below, rest, d.id);
    BuildSplit(below, rest, id);
    BuildNone(rest, d.id);
    BuildNone(below, id);
    BuildCons(d, below + rest, id);
    assert [d] + below + rest == [d] + (below + rest);
    assert Build(below, d.id) + [] == Build(below, d.id) && [] + Build(rest, id) == Build(rest, id);
  }

  /** A linked forest in which no document points to two earlier ones is rebuilt from its documents in reading order. */
  lemma {:induction false} BuildPreorder(h: Doc, forest: seq<Tree>)
    requires Linked(forest, h.id) && OneParentAtMost([h] + Preorder(forest))
    ensures Build(Preorder(forest), h.id) == forest
    decreases forest
  {
    if forest != [] {
      var d, children, others := forest[0].doc, forest[0].children, forest[1..];
      LinkedParents(children, d.id);
      LinkedParents(others, h.id);
      OneParentBelow(h, d, Preorder(children), Preorder(others));
      OneParentRest(h, d, Preorder(children), Preorder(others));
      PartsApart(h, d, Preorder(children), Preorder(others));
      BuildPreorder(d, children);
      BuildPreorder(h, others);
      BuildFirst(d, Preorder(children), Preorder(others), h.id);
      assert forest == [forest[0]] + others && forest[0] == Tree(d, children);
    }
  }

  // ---------------------------------------------------------------- counting what is built

  lemma {:induction false} PreorderJoin(a: seq<Tree>, b: seq<Tree>)
    ensures |Preorder(a + b)| == |Preorder(a)| + |Preorder(b)|
  {
    if a == [] {
      assert a + b == b;
    } else {
      assert (a + b)[1..] == a[1..] + b;
      PreorderJoin(a[1..], b);
    }
  }

  /** How many documents are built below an id. */
  function Built(docs: seq<Doc>, id: string): nat {
    |Preorder(Build(docs, id))|
  }

  lemma BuiltCons(d: Doc, docs: seq<Doc>, id: string)
    ensures Built([d] + docs, id) == Built(docs, id) + (if PointsTo(d, id) then 1 + Built(docs, d.id) else 0)
  {
    BuildCons(d, docs, id);
    if PointsTo(d, id) {
      PreorderFirst(Tree(d, Build(docs, d.id)), []);
      PreorderJoin([Tree(d, Build(docs, d.id))], Build(docs, id));
      assert [Tree(d, Build(docs, d.id))] + [] == [Tree(d, Build(docs, d.id))];
    } else {
      assert [] + Build(docs, id) == Build(docs, id);
    }
  }

  /** How many documents are built below the given ones, together. */
  function BuiltBelow(docs: seq<Doc>, before: seq<Doc>): nat {
    if before == [] then 0
    else BuiltBelow(docs, before[..|before| - 1]) + Built(docs, before[|before| - 1].id)
  }

  /** How many of the given documents d points to. */
  function ParentsIn(before: seq<Doc>, d: Doc): nat {
    if before == [] then 0
    else ParentsIn(before[..|before| - 1], d) + (if PointsTo(d, before[|before| - 1].id) then 1 else 0)
  }

  /** A document is built under each of its parents, with all that is below it. */
  lemma {:induction false} BuiltMore(d: Doc, docs: seq<Doc>, before: seq<Doc>)
    ensures BuiltBelow([d] + docs, before) >= BuiltBelow(docs, before)
      + (if ParentsIn(before, d) == 0 then 0 else 1 + Built(docs, d.id) + (if ParentsIn(before, d) > 1 then 1 else 0))
  {
    if before != [] {
      BuiltMore(d, docs, before[..|before| - 1]);
      BuiltCons(d, docs, before[|before| - 1].id);
    }
  }

  lemma BuiltSnoc(docs: seq<Doc>, before: seq<Doc>, d: Doc)
    ensures BuiltBelow(docs, before + [d]) == BuiltBelow(docs, before) + Built(docs, d.id)
  {
    assert (before + [d])[..|before + [d]| - 1] == before;
  }

  /** From i on every document has a parent before it. */
  predicate Parented(docs: seq<Doc>, i: nat) {
    forall k :: i <= k < |docs| ==> ParentsIn(docs[..k], docs[k]) >= 1
  }

  predicate Torn(docs: seq<Doc>, k: nat) {
    k < |docs| && ParentsIn(docs[..k], docs[k]) > 1
  }

  /** Each document is built at least once; if one has two parents, more are built than there are. */
  lemma {:induction false} BuiltAll(docs: seq<Doc>, i: nat, torn: nat)
    requires i <= |docs| && Parented(docs, i)
    ensures BuiltBelow(docs[i..], docs[..i]) >= |docs| - i
    ensures i <= torn && Torn(docs, torn) ==> BuiltBelow(docs[i..], docs[..i]) > |docs| - i
    decreases |docs| - i
  {
    if i < |docs| {
      var d, after := docs[i], docs[i + 1..];
      BuiltAll(docs, i + 1, torn);
      assert docs[i..] == [d] + after && docs[..i + 1] == docs[..i] + [d];
      BuiltMore(d, after, docs[..i]);
      BuiltSnoc(after, docs[..i], d);
    }
  }

  lemma {:induction false} ParentsCounted(before: seq<Doc>, d: Doc, i: nat, j: nat)
    requires i <= j < |before| && PointsTo(d, before[i].id) && PointsTo(d, before[j].id)
    ensures ParentsIn(before, d) >= if i < j then 2 else 1
    decreases |before|
  {
    var init := before[..|before| - 1];
    if j < |init| {
      ParentsCounted(init, d, i, j);
    } else if i < j {
      ParentsCounted(init, d, i, i);
    }
  }

  lemma Childed(docs: seq<Doc>)
    requires docs != [] && ParentsEarlier(docs[1..], docs[0].id)
    ensures Parented(docs, 1)
  {
    forall k | 1 <= k < |docs| ensures ParentsIn(docs[..k], docs[k]) >= 1 {
      var i := Own(docs, docs[1..], 1, 0, k - 1);
      ParentsCounted(docs[..k], docs[k], i, i);
    }
  }

  /** What is rebuilt has as many documents as there are only if no document points to two earlier ones. */
  lemma BuiltOnce(docs: seq<Doc>)
    requires docs != [] && ParentsEarlier(docs[1..], docs[0].id)
    requires Built(docs[1..], docs[0].id) <= |docs| - 1
    ensures OneParentAtMost(docs)
  {
    Childed(docs);
    assert docs[..1] == [] + [docs[0]];
    BuiltSnoc(docs[1..], [], docs[0]);
    forall i, j, k | 0 <= i < j < k < |docs| && PointsTo(docs[k], docs[i].id) ensures !PointsTo(docs[k], docs[j].id) {
      if PointsTo(docs[k], docs[j].id) {
        ParentsCounted(docs[..k], docs[k], i, j);
        BuiltAll(docs, 1, k);
      }
    }
  }

  /** Following the parent ids gives the tree back exactly when no document points to two earlier ones. */
  lemma BuildsIff(h: Doc, forest: seq<Tree>)
    requires Linked(forest, h.id)
    ensures Build(Preorder(forest), h.id) == forest <==> OneParentAtMost([h] + Preorder(forest))
  {
    var docs := [h] + Preorder(forest);
    assert docs[1..] == Preorder(forest);
    LinkedParents(forest, h.id);
    if Build(Preorder(forest), h.id) == forest {
      BuiltOnce(docs);
    }
    if OneParentAtMost(docs) {
      BuildPreorder(h, forest);
    }
  }

  // ---------------------------------------------------------------- the walked tree

  /** The tree of documents the walk goes through. */
  function Forest(r: Reader, elements: seq<Element>, parentId: string, n: nat): seq<Tree> {
    if elements == [] then []
    else
      var e := elements[0];
      if r.Kept(e) then
        var doc := r.DocOf(e, parentId, n + 1);
        [Tree(doc, Forest(r, e.children, doc.id, n + 1))]
        + Forest(r, elements[1..], parentId, n + 1 + Visited(r, e.children))
      else
        Forest(r, elements[1..], parentId, if r.component(e) then n + 1 else n)
  }

  lemma ForestKept(r: Reader, elements: seq<Element>, parentId: string, n: nat)
    requires elements != [] && r.Kept(elements[0])
    ensures var e := elements[0];
      var doc, m := r.DocOf(e, parentId, n + 1), n + 1 + Visited(r, e.children);
      Forest(r, elements, parentId, n)
        == [Tree(doc, Forest(r, e.children, doc.id, n + 1))] + Forest(r, elements[1..], parentId, m)
  {
  }

  lemma PreorderFirst(t: Tree, rest: seq<Tree>)
    ensures Preorder([t] + rest) == [t.doc] + Preorder(t.children) + Preorder(rest)
  {
    assert ([t] + rest)[1..] == rest;
  }

  lemma LinkedFirst(t: Tree, rest: seq<Tree>, id: string)
    requires PointsTo(t.doc, id) && Linked(t.children, t.doc.id) && Linked(rest, id)
    ensures Linked([t] + rest, id)
  {
    assert ([t] + rest)[1..] == rest;
  }

  /** The documents are these trees in reading order, and the trees are linked. */
  ghost predicate Grown(docs: seq<Doc>, forest: seq<Tree>, parentId: string) {
    docs == Preorder(forest) && Linked(forest, parentId)
  }

  lemma GrownFirst(doc: Doc, below: seq<Doc>, children: seq<Tree>, rest: seq<Doc>, others: seq<Tree>, parentId: string)
    requires PointsTo(doc, parentId) && Grown(below, children, doc.id) && Grown(rest, others, parentId)
    ensures Grown([doc] + below + rest, [Tree(doc, children)] + others, parentId)
  {
    PreorderFirst(Tree(doc, children), others);
    LinkedFirst(Tree(doc, children), others, parentId);
  }

  lemma KeptGrown(r: Reader, elements: seq<Element>, parentId: string, n: nat)
    requires elements != [] && r.Kept(elements[0])
    requires var e := elements[0];
      var doc, m := r.DocOf(e, parentId, n + 1), n + 1 + Visited(r, e.children);
      && Grown(Docs(r, e.children, doc.id, n + 1), Forest(r, e.children, doc.id, n + 1), doc.id)
      && Grown(Docs(r, elements[1..], parentId, m), Forest(r, elements[1..], parentId, m), parentId)
    ensures Grown(Docs(r, elements, parentId, n), Forest(r, elements, parentId, n), parentId)
  {
    var e := elements[0];
    var doc, m := r.DocOf(e, parentId, n + 1), n + 1 + Visited(r, e.children);
    assert elements[0..] == elements;
    KeepChild(r, elements, 0, parentId, n);
    ForestKept(r, elements, parentId, n);
    GrownFirst(doc, Docs(r, e.children, doc.id, n + 1), Forest(r, e.children, doc.id, n + 1),
               Docs(r, elements[1..], parentId, m), Forest(r, elements[1..], parentId, m), parentId);
  }

  /** The documents come out in reading order. */
  lemma {:induction false} WalkIsPreorder(r: Reader, elements: seq<Element>, parentId: string, n: nat)
    ensures Grown(Docs(r, elements, parentId, n), Forest(r, elements, parentId, n), parentId)
  {
    if elements != [] {
      var e := elements[0];
      if r.Kept(e) {
        WalkIsPreorder(r, e.children, r.DocOf(e, parentId, n + 1).id, n + 1);
        WalkIsPreorder(r, elements[1..], parentId, n + 1 + Visited(r, e.children));
        KeptGrown(r, elements, parentId, n);
      } else {
        WalkIsPreorder(r, elements[1..], parentId, if r.component(e) then n + 1 else n);
      }
    }
  }

  /** The shape of a tree, without the ids. */
  datatype Shape = Shape(level: string, title: string, below: seq<Shape>)

  function Shapes(forest: seq<Tree>): seq<Shape> {
    if forest == [] then []
    else [Shape(forest[0].doc.level, forest[0].doc.title, Shapes(forest[0].children))] + Shapes(forest[1..])
  }

  /** The finding aid itself: the components that carry a description, under those that do. */
  function Described(r: Reader, elements: seq<Element>): seq<Shape> {
    if elements == [] then []
    else
      var e := elements[0];
      (if r.Kept(e) then
         [Shape(r.level(e), r.title(e), Described(r, e.children))]
       else [])
      + Described(r, elements[1..])
  }

  lemma KeptShapes(r: Reader, elements: seq<Element>, parentId: string, n: nat)
    requires elements != [] && r.Kept(elements[0])
    requires var e := elements[0];
      var doc, m := r.DocOf(e, parentId, n + 1), n + 1 + Visited(r, e.children);
      && Shapes(Forest(r, e.children, doc.id, n + 1)) == Described(r, e.children)
      && Shapes(Forest(r, elements[1..], parentId, m)) == Described(r, elements[1..])
    ensures Shapes(Forest(r, elements, parentId, n)) == Described(r, elements)
  {
    var e := elements[0];
    var doc, m := r.DocOf(e, parentId, n + 1), n + 1 + Visited(r, e.children);
    ForestKept(r, elements, parentId, n);
    ShapesFirst(Tree(doc, Forest(r, e.children, doc.id, n + 1)), Forest(r, elements[1..], parentId, m));
  }

  lemma {:induction false} ForestShapes(r: Reader, elements: seq<Element>, parentId: string, n: nat)
    ensures Shapes(Forest(r, elements, parentId, n)) == Described(r, elements)
  {
    if elements != [] {
      var e := elements[0];
      if r.Kept(e) {
        ForestShapes(r, e.children, r.DocOf(e, parentId, n + 1).id, n + 1);
        ForestShapes(r, elements[1..], parentId, n + 1 + Visited(r, e.children));
        KeptShapes(r, elements, parentId, n);
      } else {
        ForestShapes(r, elements[1..], parentId, if r.component(e) then n + 1 else n);
      }
    }
  }

  lemma ShapesFirst(t: Tree, rest: seq<Tree>)
    ensures Shapes([t] + rest) == [Shape(t.doc.level, t.doc.title, Shapes(t.children))] + Shapes(rest)
  {
    assert ([t] + rest)[1..] == rest;
  }

  predicate IsParent(docs: seq<Doc>, i: int, k: int) {
    0 <= i < k < |docs| && PointsTo(docs[k], docs[i].id)
  }

  /** Exactly one earlier document carries the parent id of document k. */
  ghost predicate HasOneParent(docs: seq<Doc>, k: int) {
    exists i :: IsParent(docs, i, k) && forall j :: IsParent(docs, j, k) ==> j == i
  }

  lemma OneParentEach(docs: seq<Doc>, k: nat)
    requires docs != [] && ParentsEarlier(docs[1..], docs[0].id) && OneParentAtMost(docs) && 1 <= k < |docs|
    ensures HasOneParent(docs, k)
  {
    var i := Own(docs, docs[1..], 1, 0, k - 1);
    assert IsParent(docs, i, k);
    forall j | IsParent(docs, j, k) ensures j == i {
      if j != i {
        NoSecondParent(docs, i, j, k);
      }
    }
  }

  lemma OneParentOnly(docs: seq<Doc>, i: nat, j: nat, k: nat)
    requires i < j < k < |docs| && HasOneParent(docs, k) && PointsTo(docs[k], docs[i].id)
    ensures !PointsTo(docs[k], docs[j].id)
  {
    var p :| IsParent(docs, p, k) && forall q :: IsParent(docs, q, k) ==> q == p;
    assert IsParent(docs, i, k);
    assert IsParent(docs, j, k) ==> j == p;
  }

  lemma OneParentIff(docs: seq<Doc>)
    requires docs != [] && ParentsEarlier(docs[1..], docs[0].id)
    ensures OneParentAtMost(docs) <==> forall k :: 1 <= k < |docs| ==> HasOneParent(docs, k)
  {
    if OneParentAtMost(docs) {
      forall k | 1 <= k < |docs| ensures HasOneParent(docs, k) {
        OneParentEach(docs, k);
      }
    }
    if forall k :: 1 <= k < |docs| ==> HasOneParent(docs, k) {
      forall i, j, k | 0 <= i < j < k < |docs| && PointsTo(docs[k], docs[i].id) ensures !PointsTo(docs[k], docs[j].id) {
        OneParentOnly(docs, i, j, k);
      }
    }
  }

  /**
   When flattening loses nothing. Following the parent ids gives back the walked tree, with exactly the described
   components below the root, nested as in the finding aid and in its order, if and only if every document after
   the first has exactly one earlier document whose id is its parent id.
   */
  lemma FlatteningRebuildsIff(root: Element)
    requires AllDocs(root) != []
    ensures var docs := AllDocs(root);
      var elements := TopComponents(Archdesc(root).value);
      var walked := Forest(EAD, elements, docs[0].id, 0);
      && Preorder(walked) == docs[1..] && Shapes(walked) == Described(EAD, elements)
      && (Build(docs[1..], docs[0].id) == walked <==> forall k :: 1 <= k < |docs| ==> HasOneParent(docs, k))
  {
    var docs := AllDocs(root);
    var elements := TopComponents(Archdesc(root).value);
    var walked := Forest(EAD, elements, docs[0].id, 0);
    WalkIsPreorder(EAD, elements, docs[0].id, 0);
    ForestShapes(EAD, elements, docs[0].id, 0);
    assert docs == [docs[0]] + docs[1..];
    LinkedParents(walked, docs[0].id);
    OneParentIff(docs);
    BuildsIff(docs[0], walked);
  }

  /** All ids differ from each other. */
  predicate DistinctIds(docs: seq<Doc>) {
    forall j, k :: 0 <= j < k < |docs| ==> docs[j].id != docs[k].id
  }

  /** In particular nothing is lost when all ids of the finding aid differ. */
  lemma DistinctIdsRebuild(root: Element)
    requires AllDocs(root) != [] && DistinctIds(AllDocs(root))
    ensures var docs := AllDocs(root);
      var built, elements := Build(docs[1..], docs[0].id), TopComponents(Archdesc(root).value);
      && built == Forest(EAD, elements, docs[0].id, 0)
      && Preorder(built) == docs[1..] && Shapes(built) == Described(EAD, elements)
  {
    var docs := AllDocs(root);
    WalkIsPreorder(EAD, TopComponents(Archdesc(root).value), docs[0].id, 0);
    LinkedParents(Forest(EAD, TopComponents(Archdesc(root).value), docs[0].id, 0), docs[0].id);
    OneParentIff(docs);
    FlatteningRebuildsIff(root);
  }
}
