/** Weighted drop tables. */
module Drops {
  import opened Results
  import opened Integers
  import opened Text

  const MAX_ENTRIES := 8
  const WRAP := 0x1_0000_0000_0000_0000

  datatype Entry = Entry(itemVnum: Uint32, weight: Uint32)

  predicate DistinctItems(entries: seq<Entry>) {
    forall i, j | 0 <= i < j < |entries| :: entries[i].itemVnum != entries[j].itemVnum
  }

  /** Two to eight entries of different real items, all of them known when a catalogue is given; or none at all. */
  predicate ValidEntries(entries: seq<Entry>, known: Option<set<Uint32>>) {
    entries != [] ==>
      && 2 <= |entries| <= MAX_ENTRIES && DistinctItems(entries)
      && forall i | 0 <= i < |entries| ::
        entries[i].itemVnum != 0 && entries[i].weight != 0 && (known.Some? ==> entries[i].itemVnum in known.value)
  }

  method ValidDropTableEntries(entries: seq<Entry>, known: Option<set<Uint32>>) returns (ok: bool)
    ensures ok <==> ValidEntries(entries, known)
  {
    if |entries| == 0 {
      return true;
    }
    if |entries| < 2 || |entries| > MAX_ENTRIES {
      return false;
    }
    var seen: set<Uint32> := {};
    for i := 0 to |entries|
      invariant DistinctItems(entries[..i])
      invariant forall v :: v in seen <==> exists k :: 0 <= k < i && entries[k].itemVnum == v
      invariant forall k | 0 <= k < i ::
        entries[k].itemVnum != 0 && entries[k].weight != 0 && (known.Some? ==> entries[k].itemVnum in known.value)
    {
      var entry := entries[i];
      if entry.itemVnum == 0 || entry.weight == 0 {
        return false;
      }
      if entry.itemVnum in seen {
        return false;
      }
      seen := seen + {entry.itemVnum};
      if known.Some? && entry.itemVnum !in known.value {
        return false;
      }
    }
    assert entries[..|entries|] == entries;
    return true;
  }

  /** The weight of the first entries. */
  function WeightBefore(entries: seq<Entry>, n: nat): nat
    requires n <= |entries|
  {
    if n == 0 then 0 else WeightBefore(entries, n - 1) + entries[n - 1].weight
  }

  function Total(entries: seq<Entry>): nat {
    WeightBefore(entries, |entries|)
  }

  /** The slots of an entry: as many as its weight, behind those of the entries in front of it. */
  predicate Chosen(entries: seq<Entry>, slot: int, i: nat)
    requires i < |entries|
  {
    WeightBefore(entries, i) <= slot < WeightBefore(entries, i + 1)
  }

  lemma {:induction false} WeightsBelow(entries: seq<Entry>, n: nat)
    requires n <= |entries|
    ensures WeightBefore(entries, n) <= n * 0xFFFF_FFFF
  {
    if n > 0 {
      WeightsBelow(entries, n - 1);
    }
  }

  lemma {:induction false} WeightsGrow(entries: seq<Entry>, m: nat, n: nat)
    requires m <= n <= |entries|
    ensures WeightBefore(entries, m) <= WeightBefore(entries, n)
  {
    if m < n {
      WeightsGrow(entries, m, n - 1);
    }
  }

  /** Go's uint64 addition. */
  function AddUint64(a: Uint64, b: Uint64): Uint64 {
    (a + b) % WRAP
  }

  method TotalWeight(entries: seq<Entry>) returns (total: Uint64)
    requires |entries| <= MAX_ENTRIES
    ensures total == Total(entries)
  {
    total := 0;
    for i := 0 to |entries|
      invariant total == WeightBefore(entries, i)
    {
      WeightsBelow(entries, i + 1);
      total := AddUint64(total, entries[i].weight);
    }
  }

  /** The loop over the entries; the return behind it is never reached. */
  method EntryAt(entries: seq<Entry>, slot: Uint64) returns (at: nat)
    requires |entries| <= MAX_ENTRIES && slot < Total(entries)
    ensures at < |entries| && Chosen(entries, slot, at)
  {
    var cumulative: Uint64 := 0;
    for i := 0 to |entries|
      invariant cumulative == WeightBefore(entries, i) <= slot
    {
      WeightsBelow(entries, i + 1);
      cumulative := AddUint64(cumulative, entries[i].weight);
      if slot < cumulative {
        return i;
      }
    }
    assert false;
  }

  lemma SomeWeight(entries: seq<Entry>)
    requires ValidEntries(entries, None)
    ensures entries != [] <==> Total(entries) > 0
  {
    if entries != [] {
      WeightsGrow(entries, 1, |entries|);
    }
  }

  /** The item that a slot picks. */
  ghost predicate Picks(entries: seq<Entry>, slot: int, item: Uint32) {
    exists i: nat :: i < |entries| && Chosen(entries, slot, i) && entries[i].itemVnum == item
  }

  /**
   * The pick: the slot is the hash of the trimmed seed modulo the total weight, which never wraps, and the entry is
   * the one whose slots contain it.
   */
  method PickWeightedDropVnum(entries: seq<Entry>, seed: string, hash: string -> Uint64) returns (r: Option<Uint32>)
    ensures r.Some? <==> entries != [] && ValidEntries(entries, None)
    ensures r.Some? ==> Total(entries) > 0 && Picks(entries, hash(TrimSpace(seed)) % Total(entries), r.value)
  {
    hide Total, TrimSpace, Chosen;
    var valid := ValidDropTableEntries(entries, None);
    if !valid {
      return None;
    }
    SomeWeight(entries);
    var total := TotalWeight(entries);
    if total == 0 {
      return None;
    }
    var slot := hash(TrimSpace(seed)) % total;
    var found := EntryAt(entries, slot);
    return Some(entries[found].itemVnum);
  }

  // ---------------------------------------------------------------------------------------------
  // The slots.
  // ---------------------------------------------------------------------------------------------

  /** Every slot below the total belongs to exactly one entry. */
  lemma {:induction false} SlotHasEntry(entries: seq<Entry>, slot: int, n: nat) returns (i: nat)
    requires n <= |entries| && 0 <= slot < WeightBefore(entries, n)
    ensures i < n && Chosen(entries, slot, i)
    ensures forall j: nat | j < |entries| && Chosen(entries, slot, j) :: j == i
  {
    if slot >= WeightBefore(entries, n - 1) {
      i := n - 1;
    } else {
      i := SlotHasEntry(entries, slot, n - 1);
    }
    forall j: nat | j < |entries| && Chosen(entries, slot, j) ensures j == i {
      if j < i {
        WeightsGrow(entries, j + 1, i);
      } else if i < j {
        WeightsGrow(entries, i + 1, j);
      }
    }
  }

  /** Slots are laid out in the order of the entries, from zero on. */
  lemma SlotsInOrder(entries: seq<Entry>, s: int, t: int, i: nat, j: nat)
    requires i < |entries| && j < |entries| && Chosen(entries, s, i) && Chosen(entries, t, j) && i < j
    ensures 0 <= s < t < Total(entries)
  {
    WeightsGrow(entries, i + 1, j);
    WeightsGrow(entries, j + 1, |entries|);
  }

  function Range(low: int, high: int): (range: set<int>)
    requires low <= high
    ensures |range| == high - low && forall s :: s in range <==> low <= s < high
    decreases high - low
  {
    if low == high then {} else Range(low, high - 1) + {high - 1}
  }

  /** The slots that pick the item. */
  ghost function SlotsOf(entries: seq<Entry>, item: Uint32): set<int> {
    set s | s in Range(0, Total(entries)) && Picks(entries, s, item)
  }

  /** The pick is exact: over all slots, each item is picked by as many of them as its weight says. */
  lemma ItemHasItsWeight(entries: seq<Entry>, i: nat)
    requires ValidEntries(entries, None) && i < |entries|
    ensures |SlotsOf(entries, entries[i].itemVnum)| == entries[i].weight
  {
    var low, high := WeightBefore(entries, i), WeightBefore(entries, i + 1);
    WeightsGrow(entries, i + 1, |entries|);
    WeightsGrow(entries, 0, i);
    forall s | 0 <= s < Total(entries) ensures Picks(entries, s, entries[i].itemVnum) <==> low <= s < high {
      var j := SlotHasEntry(entries, s, |entries|);
      assert Chosen(entries, s, i) <==> low <= s < high;
      if Picks(entries, s, entries[i].itemVnum) {
        var k: nat :| k < |entries| && Chosen(entries, s, k) && entries[k].itemVnum == entries[i].itemVnum;
        SameItem(entries, i, k);
      }
    }
    assert SlotsOf(entries, entries[i].itemVnum) == Range(low, high);
  }

  lemma SameItem(entries: seq<Entry>, i: nat, k: nat)
    requires DistinctItems(entries) && i < |entries| && k < |entries| && entries[i].itemVnum == entries[k].itemVnum
    ensures i == k
  {
  }
}
