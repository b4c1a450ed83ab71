/** One list gathered from many items: the piece of each item, one behind the other. */
module Gathering {
  /** Piece k lies between cuts[k] and cuts[k + 1]. */
  ghost predicate PieceAt<T>(all: seq<T>, pieces: seq<seq<T>>, cuts: seq<nat>, k: nat)
    requires k < |pieces| == |cuts| - 1
  {
    cuts[k] <= cuts[k + 1] <= |all| && all[cuts[k]..cuts[k + 1]] == pieces[k]
  }

  /** There is nothing else. */
  ghost predicate CutAs<T>(all: seq<T>, pieces: seq<seq<T>>, cuts: seq<nat>) {
    && |cuts| == |pieces| + 1 && cuts[0] == 0 && cuts[|pieces|] == |all|
    && forall k :: 0 <= k < |pieces| ==> PieceAt(all, pieces, cuts, k)
  }

  ghost predicate Gathers<T>(all: seq<T>, pieces: seq<seq<T>>) {
    exists cuts: seq<nat> :: CutAs(all, pieces, cuts)
  }

  lemma GathersNone<T>()
    ensures Gathers<T>([], [])
  {
    assert CutAs<T>([], [], [0]);
  }

  lemma GathersSnoc<T>(all: seq<T>, pieces: seq<seq<T>>, piece: seq<T>)
    requires Gathers(all, pieces)
    ensures Gathers(all + piece, pieces + [piece])
  {
    var cuts: seq<nat> :| CutAs(all, pieces, cuts);
    CutsSnoc(all, pieces, cuts, piece);
    assert CutAs(all + piece, pieces + [piece], cuts + [|all| + |piece|]);
  }

  lemma CutsSnoc<T>(all: seq<T>, pieces: seq<seq<T>>, cuts: seq<nat>, piece: seq<T>)
    requires CutAs(all, pieces, cuts)
    ensures CutAs(all + piece, pieces + [piece], cuts + [|all| + |piece|])
  {
    var p, c := pieces + [piece], cuts + [|all| + |piece|];
    forall k | 0 <= k < |p| ensures PieceAt(all + piece, p, c, k) {
      if k < |pieces| {
        assert PieceAt(all, pieces, cuts, k);
        assert c[k] == cuts[k] && c[k + 1] == cuts[k + 1] && p[k] == pieces[k];
        EarlierPiece(all, cuts[k], cuts[k + 1], piece);
      } else {
        LastPiece(all, piece);
      }
    }
  }

  lemma EarlierPiece<T>(all: seq<T>, lo: nat, hi: nat, piece: seq<T>)
    requires lo <= hi <= |all|
    ensures (all + piece)[lo..hi] == all[lo..hi]
  {
  }

  lemma LastPiece<T>(all: seq<T>, piece: seq<T>)
    ensures (all + piece)[|all|..|all| + |piece|] == piece
  {
  }

  lemma {:induction false} GathersJoin<T>(a: seq<T>, b: seq<T>, ps: seq<seq<T>>, qs: seq<seq<T>>)
    requires Gathers(a, ps) && Gathers(b, qs)
    ensures Gathers(a + b, ps + qs)
    decreases |qs|
  {
    if qs == [] {
      assert b == [] && a + b == a && ps + qs == ps;
    } else {
      var n := |qs| - 1;
      var init := GathersInit(b, qs);
      GathersJoin(a, init, ps, qs[..n]);
      GathersSnoc(a + init, ps + qs[..n], qs[n]);
      Regroup(a, init, qs[n]);
      LastOf(qs);
      Regroup(ps, qs[..n], [qs[n]]);
    }
  }

  lemma Regroup<T>(a: seq<T>, b: seq<T>, c: seq<T>)
    ensures a + b + c == a + (b + c)
  {
  }

  lemma LastOf<T>(s: seq<T>)
    requires s != []
    ensures s[..|s| - 1] + [s[|s| - 1]] == s
  {
  }

  lemma GathersSingle<T>(piece: seq<T>)
    ensures Gathers(piece, [piece])
  {
    assert PieceAt(piece, [piece], [0, |piece|], 0);
    assert CutAs(piece, [piece], [0, |piece|]);
  }

  /** The last piece of what is gathered, and the rest. */
  lemma GathersInit<T>(all: seq<T>, pieces: seq<seq<T>>) returns (init: seq<T>)
    requires Gathers(all, pieces) && pieces != []
    ensures all == init + pieces[|pieces| - 1] && Gathers(init, pieces[..|pieces| - 1])
  {
    var cuts: seq<nat> :| CutAs(all, pieces, cuts);
    var n := |pieces| - 1;
    assert PieceAt(all, pieces, cuts, n);
    init := all[..cuts[n]];
    assert all == all[..cuts[n]] + all[cuts[n]..cuts[n + 1]];
    var ps, cs := pieces[..n], cuts[..n + 1];
    forall k | 0 <= k < n ensures PieceAt(init, ps, cs, k) {
      PieceOfInit(all, pieces, cuts, k);
    }
    assert CutAs(init, ps, cs);
  }

  lemma PieceOfInit<T>(all: seq<T>, pieces: seq<seq<T>>, cuts: seq<nat>, k: nat)
    requires CutAs(all, pieces, cuts) && k < |pieces| - 1
    ensures var n := cuts[|pieces| - 1];
      cuts[k] <= cuts[k + 1] <= n <= |all| && all[..n][cuts[k]..cuts[k + 1]] == pieces[k]
  {
    Ascends(all, pieces, cuts, k + 1, |pieces| - 1);
    Ascends(all, pieces, cuts, |pieces| - 1, |pieces|);
    assert PieceAt(all, pieces, cuts, k);
    var n := cuts[|pieces| - 1];
    assert all[..n][cuts[k]..cuts[k + 1]] == all[cuts[k]..cuts[k + 1]];
  }

  lemma {:induction false} Ascends<T>(all: seq<T>, pieces: seq<seq<T>>, cuts: seq<nat>, j: nat, k: nat)
    requires CutAs(all, pieces, cuts) && j <= k <= |pieces|
    ensures cuts[j] <= cuts[k]
    decreases k
  {
    if j < k {
      Ascends(all, pieces, cuts, j, k - 1);
      assert PieceAt(all, pieces, cuts, k - 1);
    }
  }

  /** The pieces leave nothing open. */
  lemma {:induction false} GathersOne<T>(a: seq<T>, b: seq<T>, pieces: seq<seq<T>>)
    requires Gathers(a, pieces) && Gathers(b, pieces)
    ensures a == b
    decreases |pieces|
  {
    if pieces == [] {
      assert a == [] && b == [];
    } else {
      var x := GathersInit(a, pieces);
      var y := GathersInit(b, pieces);
      GathersOne(x, y, pieces[..|pieces| - 1]);
    }
  }
}
