/** `json.dumps(v, sort_keys=True)`: one text for all the insertion orders of the same dict. */
module CanonicalJson {
  import opened Text
  import opened Json

  predicate DistinctKeys(ms: seq<Member>) {
    forall i, j :: 0 <= i < j < |ms| ==> ms[i].key != ms[j].key
  }

  ghost predicate KeysAscend(ms: seq<Member>) {
    forall i, j :: 0 <= i < j < |ms| ==> Less(ms[i].key, ms[j].key)
  }

  function InsertMember(m: Member, ms: seq<Member>): (r: seq<Member>)
    ensures |r| == |ms| + 1
    ensures forall n :: n in r <==> n == m || n in ms
  {
    if ms == [] then [m]
    else if Leq(m.key, ms[0].key) then [m] + ms
    else
      assert ms == [ms[0]] + ms[1..];
      [ms[0]] + InsertMember(m, ms[1..])
  }

  function SortMembers(ms: seq<Member>): (r: seq<Member>)
    ensures |r| == |ms|
    ensures forall n :: n in r <==> n in ms
  {
    if ms == [] then []
    else
      assert ms == [ms[0]] + ms[1..];
      InsertMember(ms[0], SortMembers(ms[1..]))
  }

  /** The value with the members of every object sorted by key. */
  function SortKeys(v: Value): Value
    decreases v, 1
  {
    match v
    case Arr(items) => Arr(SortItems(items))
    case Obj(members) => Obj(SortMembers(SortValues(members)))
    case _ => v
  }

  function SortItems(items: seq<Value>): (r: seq<Value>)
    ensures |r| == |items|
    decreases items, 0
  {
    if items == [] then [] else [SortKeys(items[0])] + SortItems(items[1..])
  }

  function SortValues(members: seq<Member>): (r: seq<Member>)
    ensures |r| == |members|
    ensures forall k :: 0 <= k < |members| ==> r[k].key == members[k].key && r[k].value == SortKeys(members[k].value)
    decreases members, 0
  {
    if members == [] then []
    else [Member(members[0].key, SortKeys(members[0].value))] + SortValues(members[1..])
  }

  function CanonicalDumps(v: Value): string {
    Dumps(SortKeys(v), Spaced)
  }

  lemma {:induction false} InsertAscends(m: Member, ms: seq<Member>)
    requires KeysAscend(ms) && forall n :: n in ms ==> n.key != m.key
    ensures KeysAscend(InsertMember(m, ms))
  {
    if ms != [] {
      var n := ms[0];
      assert n in ms;
      LessTotal(m.key, n.key);
      if Leq(m.key, n.key) {
        forall k | 1 <= k < |ms| ensures Less(m.key, ms[k].key) {
          LessTransitive(m.key, n.key, ms[k].key);
        }
      } else {
        InsertAscends(m, ms[1..]);
        var rest := InsertMember(m, ms[1..]);
        forall k | 0 <= k < |rest| ensures Less(n.key, rest[k].key) {
          assert rest[k] in rest;
        }
      }
    }
  }

  lemma {:induction false} SortAscends(ms: seq<Member>)
    requires DistinctKeys(ms)
    ensures KeysAscend(SortMembers(ms))
  {
    if ms != [] {
      SortAscends(ms[1..]);
      InsertAscends(ms[0], SortMembers(ms[1..]));
    }
  }

  /** Ascending lists with the same members are the same list. */
  lemma {:induction false} AscendingUnique(ms: seq<Member>, ns: seq<Member>)
    requires KeysAscend(ms) && KeysAscend(ns)
    requires forall m :: m in ms <==> m in ns
    ensures ms == ns
  {
    assert ns != [] ==> ns[0] in ns;
    if ms != [] {
      assert ms[0] in ms && ms[0] in ns;
      assert ns[0] in ns && ns[0] in ms;
      LessIrreflexive(ms[0].key);
      if ms[0] != ns[0] {
        assert Less(ms[0].key, ns[0].key) && Less(ns[0].key, ms[0].key);
        LessTransitive(ms[0].key, ns[0].key, ms[0].key);
      }
      forall m ensures m in ms[1..] <==> m in ns[1..] {
        TailMembers(ms, m);
        TailMembers(ns, m);
      }
      AscendingUnique(ms[1..], ns[1..]);
      assert ms == [ms[0]] + ms[1..] && ns == [ns[0]] + ns[1..];
    }
  }

  lemma TailMembers(ms: seq<Member>, m: Member)
    requires KeysAscend(ms) && ms != []
    ensures m in ms[1..] <==> m in ms && m != ms[0]
  {
    LessIrreflexive(m.key);
    assert ms == [ms[0]] + ms[1..];
    if m in ms[1..] {
      var k :| 0 <= k < |ms[1..]| && ms[1..][k] == m;
      assert Less(ms[0].key, ms[k + 1].key);
    }
  }

  /** Two member lists with distinct keys sort to the same list exactly when they have the same members. */
  lemma SortCanonical(ms: seq<Member>, ns: seq<Member>)
    requires DistinctKeys(ms) && DistinctKeys(ns)
    ensures SortMembers(ms) == SortMembers(ns) <==> (forall m :: m in ms <==> m in ns)
  {
    SortAscends(ms);
    SortAscends(ns);
    if forall m :: m in ms <==> m in ns {
      AscendingUnique(SortMembers(ms), SortMembers(ns));
    } else {
      var m :| !(m in ms <==> m in ns);
      assert m in SortMembers(ms) <==> m in ms;
      assert m in SortMembers(ns) <==> m in ns;
    }
  }

  lemma {:induction false} SortKeysValid(v: Value)
    requires Valid(v)
    ensures Valid(SortKeys(v))
    decreases v, 1
  {
    match v
    case Arr(items) => SortItemsValid(items);
    case Obj(members) =>
      SortValuesValid(members);
      var sorted := SortMembers(SortValues(members));
      forall k | 0 <= k < |sorted| ensures Valid(sorted[k].value) {
        assert sorted[k] in sorted && sorted[k] in SortValues(members);
      }
    case _ =>
  }

  lemma {:induction false} SortItemsValid(items: seq<Value>)
    requires forall k :: 0 <= k < |items| ==> Valid(items[k])
    ensures forall k :: 0 <= k < |items| ==> Valid(SortItems(items)[k])
    decreases items, 0
  {
    if items != [] {
      SortKeysValid(items[0]);
      SortItemsValid(items[1..]);
    }
  }

  lemma {:induction false} SortValuesValid(members: seq<Member>)
    requires ValidMembers(members)
    ensures ValidMembers(SortValues(members))
    decreases members, 0
  {
    if members != [] {
      SortKeysValid(members[0].value);
      SortValuesValid(members[1..]);
    }
  }

  lemma CanonicalDumpsSorted(v: Value, w: Value)
    requires Valid(v) && Valid(w)
    ensures CanonicalDumps(v) == CanonicalDumps(w) <==> SortKeys(v) == SortKeys(w)
  {
    SortKeysValid(v);
    SortKeysValid(w);
    if CanonicalDumps(v) == CanonicalDumps(w) {
      DumpsInjective(SortKeys(v), SortKeys(w), Spaced);
    }
  }

  // ---------------------------------------------------------------- equality of values

  /** No object in the value has a key twice: the value of a Python object. */
  predicate KeysApart(v: Value)
    decreases v
  {
    match v
    case Arr(items) => forall k :: 0 <= k < |items| ==> KeysApart(items[k])
    case Obj(members) => DistinctKeys(members) && forall k :: 0 <= k < |members| ==> KeysApart(members[k].value)
    case _ => true
  }

  /** Python's `==`: lists item by item, dicts by their members whatever the order, and so on inside. */
  predicate SameValue(v: Value, w: Value)
    decreases v
  {
    match v
    case Arr(a) =>
      w.Arr? && |a| == |w.items| && forall k :: 0 <= k < |a| ==> SameValue(a[k], w.items[k])
    case Obj(ms) =>
      && w.Obj?
      && (forall k :: 0 <= k < |ms| ==> SameIsIn(ms[k], w.members))
      && (forall j :: 0 <= j < |w.members| ==> HoldSame(ms, w.members[j]))
    case _ => v == w
  }

  predicate SameIsIn(m: Member, ns: seq<Member>)
    decreases m, 1
  {
    exists j :: 0 <= j < |ns| && SameMember(m, ns[j])
  }

  predicate HoldSame(ms: seq<Member>, n: Member)
    decreases ms
  {
    exists k :: 0 <= k < |ms| && SameMember(ms[k], n)
  }

  predicate SameMember(m: Member, n: Member)
    decreases m, 0
  {
    m.key == n.key && SameValue(m.value, n.value)
  }

  lemma {:induction false} SortItemsAt(items: seq<Value>, k: nat)
    requires k < |items|
    ensures SortItems(items)[k] == SortKeys(items[k])
  {
    if k > 0 {
      SortItemsAt(items[1..], k - 1);
    }
  }

  predicate Found(m: Member, ns: seq<Member>) {
    exists j :: 0 <= j < |ns| && ns[j] == m
  }

  lemma SameMembers(a: seq<Member>, b: seq<Member>)
    requires DistinctKeys(a) && DistinctKeys(b)
    ensures SortMembers(a) == SortMembers(b) <==> (
      && (forall k :: 0 <= k < |a| ==> Found(a[k], b))
      && (forall j :: 0 <= j < |b| ==> Found(b[j], a)))
  {
    SortCanonical(a, b);
    if (forall k :: 0 <= k < |a| ==> Found(a[k], b)) && (forall j :: 0 <= j < |b| ==> Found(b[j], a)) {
      forall m ensures m in a <==> m in b {
        if m in a {
          var k :| 0 <= k < |a| && a[k] == m;
          assert Found(a[k], b);
        }
        if m in b {
          var j :| 0 <= j < |b| && b[j] == m;
          assert Found(b[j], a);
        }
      }
    }
    if forall m :: m in a <==> m in b {
      forall k | 0 <= k < |a| ensures Found(a[k], b) {
        assert a[k] in a && a[k] in b;
      }
      forall j | 0 <= j < |b| ensures Found(b[j], a) {
        assert b[j] in b && b[j] in a;
      }
    }
  }

  lemma {:induction false} SortedItemsSame(a: seq<Value>, b: seq<Value>)
    requires forall k :: 0 <= k < |a| ==> KeysApart(a[k])
    requires forall k :: 0 <= k < |b| ==> KeysApart(b[k])
    ensures SortItems(a) == SortItems(b) <==> |a| == |b| && forall k :: 0 <= k < |a| ==> SameValue(a[k], b[k])
    decreases a, 0
  {
    forall k | 0 <= k < |a| && k < |b|
      ensures SortItems(a)[k] == SortItems(b)[k] <==> SameValue(a[k], b[k])
    {
      SortItemsAt(a, k);
      SortItemsAt(b, k);
      SortedSame(a[k], b[k]);
    }
  }

  /** Sorted values of one member are equal exactly when key and value are. */
  lemma {:induction false} SortedMemberSame(ms: seq<Member>, ns: seq<Member>, k: nat, j: nat)
    requires k < |ms| && j < |ns| && KeysApart(ms[k].value) && KeysApart(ns[j].value)
    ensures SortValues(ms)[k] == SortValues(ns)[j] <==> SameMember(ms[k], ns[j])
    decreases ms, 0
  {
    SortedSame(ms[k].value, ns[j].value);
  }

  lemma {:induction false} SortedMembersSame(ms: seq<Member>, ns: seq<Member>)
    requires DistinctKeys(ms) && forall k :: 0 <= k < |ms| ==> KeysApart(ms[k].value)
    requires DistinctKeys(ns) && forall k :: 0 <= k < |ns| ==> KeysApart(ns[k].value)
    ensures SortMembers(SortValues(ms)) == SortMembers(SortValues(ns)) <==> SameValue(Obj(ms), Obj(ns))
    decreases ms, 1
  {
    var a, b := SortValues(ms), SortValues(ns);
    forall k, j | 0 <= k < |ms| && 0 <= j < |ns|
      ensures a[k] == b[j] <==> SameMember(ms[k], ns[j])
    {
      SortedMemberSame(ms, ns, k, j);
    }
    SameMembers(a, b);
    FoundIff(ms, ns, a, b);
  }

  lemma FoundIff(ms: seq<Member>, ns: seq<Member>, a: seq<Member>, b: seq<Member>)
    requires |a| == |ms| && |b| == |ns|
    requires forall k, j :: 0 <= k < |ms| && 0 <= j < |ns| ==> (a[k] == b[j] <==> SameMember(ms[k], ns[j]))
    ensures SameValue(Obj(ms), Obj(ns)) <==> (
      && (forall k :: 0 <= k < |a| ==> Found(a[k], b))
      && (forall j :: 0 <= j < |b| ==> Found(b[j], a)))
  {
    forall k | 0 <= k < |a| ensures Found(a[k], b) <==> SameIsIn(ms[k], ns) {
      if Found(a[k], b) {
        var j :| 0 <= j < |b| && b[j] == a[k];
        assert SameMember(ms[k], ns[j]);
      }
      if SameIsIn(ms[k], ns) {
        var j :| 0 <= j < |ns| && SameMember(ms[k], ns[j]);
        assert b[j] == a[k];
      }
    }
    forall j | 0 <= j < |b| ensures Found(b[j], a) <==> HoldSame(ms, ns[j]) {
      if Found(b[j], a) {
        var k :| 0 <= k < |a| && a[k] == b[j];
        assert SameMember(ms[k], ns[j]);
      }
      if HoldSame(ms, ns[j]) {
        var k :| 0 <= k < |ms| && SameMember(ms[k], ns[j]);
        assert a[k] == b[j];
      }
    }
  }

  /** Sorting the keys everywhere makes two values one exactly when Python finds them equal. */
  lemma {:induction false} SortedSame(v: Value, w: Value)
    requires KeysApart(v) && KeysApart(w)
    ensures SortKeys(v) == SortKeys(w) <==> SameValue(v, w)
    decreases v
  {
    if v.Arr? && w.Arr? {
      SortedItemsSame(v.items, w.items);
    } else if v.Obj? && w.Obj? {
      SortedMembersSame(v.members, w.members);
    }
  }

  /** Two values have one canonical text exactly when they are equal, whatever the order of their keys. */
  lemma CanonicalDumpsInjective(v: Value, w: Value)
    requires Valid(v) && Valid(w) && KeysApart(v) && KeysApart(w)
    ensures CanonicalDumps(v) == CanonicalDumps(w) <==> SameValue(v, w)
  {
    CanonicalDumpsSorted(v, w);
    SortedSame(v, w);
  }
}
