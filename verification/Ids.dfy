/** Lists of 32-bit ids, none of them zero: what the quarantines collect into sets, check for repeats and sort again. */
module Ids {
  import opened Ordered
  import opened Integers

  function IdKey(id: Uint32): Key {
    Key(id, 0, 0, 0)
  }

  predicate ValidIds(ids: seq<Uint32>) {
    DistinctKeys(ids, IdKey) && 0 !in ids
  }

  method CollectIds(ids: seq<Uint32>) returns (ok: bool, seen: set<Uint32>)
    ensures ok <==> ValidIds(ids)
    ensures ok ==> forall v :: v in seen <==> v in ids
  {
    seen := {};
    for i := 0 to |ids|
      invariant ValidIds(ids[..i])
      invariant forall v :: v in seen <==> v in ids[..i]
    {
      assert ids[..i + 1] == ids[..i] + [ids[i]];
      if ids[i] == 0 {
        return false, seen;
      }
      if ids[i] in seen {
        assert ids[i] in ids[..i];
        return false, seen;
      }
      seen := seen + {ids[i]};
    }
    assert ids[..|ids|] == ids;
    return true, seen;
  }

  method SortedIds(ids: set<Uint32>) returns (sorted: seq<Uint32>)
    ensures Sorted(sorted, IdKey)
    ensures forall v :: v in sorted <==> v in ids
  {
    var collected := AnyOrder(ids);
    sorted := SortBy(collected, IdKey);
    InMultiset(sorted, collected);
    DistinctKeysPermute(sorted, collected, IdKey);
    AscendingDistinct(sorted, IdKey);
  }
}
