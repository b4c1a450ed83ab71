/** The counting half of `bulk_index` (app/adapters/elasticsearch/adapter.py). */
module BulkIndex {
  /** One entry of the `_bulk` response; `status` is that of its index or create part, 0 when it has none. */
  datatype Item = NotAnObject | Operation(status: int)

  predicate Succeeded(item: Item) {
    item.Operation? && 200 <= item.status < 300
  }

  function CountSucceeded(items: seq<Item>): nat {
    if items == [] then 0
    else CountSucceeded(items[..|items| - 1]) + (if Succeeded(items[|items| - 1]) then 1 else 0)
  }

  /**
   Counts what the backend reports for a batch. With one item a document nothing is lost: the two counts add
   up to the batch. A response without items counts the whole batch as ingested. So the count, on which the epoch
   moves, is positive exactly when some item succeeded or there are no items at all.
   */
  method Tally(batch: nat, items: seq<Item>) returns (ingested: nat, failed: nat)
    ensures batch == 0 ==> ingested == failed == 0
    ensures batch > 0 && items == [] ==> ingested == batch && failed == 0
    ensures batch > 0 && items != [] ==>
      && ingested == |set k | 0 <= k < |items| && items[k].Operation? && items[k].status / 100 == 2|
      && ingested + failed == |items|
    ensures |items| == batch ==> ingested + failed == batch
    ensures ingested > 0 <==> batch > 0 && (items == [] || exists k :: 0 <= k < |items| && Succeeded(items[k]))
  {
    ingested, failed := 0, 0;
    if batch == 0 {
      return;
    }
    for k := 0 to |items|
      invariant ingested == CountSucceeded(items[..k]) && ingested + failed == k
    {
      assert items[..k + 1][..k] == items[..k];
      if Succeeded(items[k]) {
        ingested := ingested + 1;
      } else {
        failed := failed + 1;
      }
    }
    assert items[..|items|] == items;
    SomeSucceeded(items);
    CountedOneByOne(items);
    SuccessIs2xx(items);
    if items == [] {
      ingested := batch;
    }
  }

  lemma SuccessIs2xx(items: seq<Item>)
    ensures (set k | 0 <= k < |items| && Succeeded(items[k]))
         == (set k | 0 <= k < |items| && items[k].Operation? && items[k].status / 100 == 2)
  {
  }

  lemma {:induction false} CountedOneByOne(items: seq<Item>)
    ensures CountSucceeded(items) == |set k | 0 <= k < |items| && Succeeded(items[k])|
  {
    if items != [] {
      var n := |items| - 1;
      CountedOneByOne(items[..n]);
      assert (set k | 0 <= k < |items| && Succeeded(items[k]))
          == (set k | 0 <= k < |items[..n]| && Succeeded(items[..n][k])) + (if Succeeded(items[n]) then {n} else {});
    }
  }

  lemma {:induction false} SomeSucceeded(items: seq<Item>)
    ensures CountSucceeded(items) > 0 <==> exists k :: 0 <= k < |items| && Succeeded(items[k])
  {
    if items != [] {
      var init := items[..|items| - 1];
      SomeSucceeded(init);
      if CountSucceeded(init) > 0 {
        var k :| 0 <= k < |init| && Succeeded(init[k]);
        assert Succeeded(items[k]);
      }
      if exists k :: 0 <= k < |items| - 1 && Succeeded(items[k]) {
        var k :| 0 <= k < |items| - 1 && Succeeded(items[k]);
        assert Succeeded(init[k]);
      }
    }
  }
}
