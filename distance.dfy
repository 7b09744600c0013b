/**
 * The distance prefetcher (prefetcher/dp_slot_1/dp_slot_1.cc). It keys its
 * table by the signed page distance between consecutive accesses and
 * remembers, for each distance, the distance that followed it last time
 * (`SLOT_SIZE` is 1). On an access the distances listed for the current
 * distance are prefetched relative to the current address, and the current
 * distance becomes the successor of the previous one.
 */
module DistancePrefetch {
  import opened Word
  import opened Champsim
  import MruList

  const DP_SETS: nat := 64
  const DP_WAYS: nat := 1
  const SLOT_SIZE: nat := 1

  /**
   * `(int64(vpn) - int64(previous_vpn)) >> LOG2_PAGE_SIZE`: a signed
   * difference followed by an arithmetic shift, which rounds toward minus
   * infinity. An overflowing subtraction wraps around. For two addresses in
   * the lower half of the address space the result is the page distance,
   * rounded down.
   */
  function PageDistance(vpn: u64, previousVpn: u64): (d: i64)
    ensures vpn < TWO_63 && previousVpn < TWO_63 ==>
              d * PAGE_SIZE <= vpn - previousVpn < d * PAGE_SIZE + PAGE_SIZE
  {
    LowHalfDifference(vpn, previousVpn);
    AsSigned(AsSigned(vpn) - AsSigned(previousVpn)) / PAGE_SIZE
  }

  /** In the lower half of the address space the signed subtraction is exact. */
  lemma LowHalfDifference(vpn: u64, previousVpn: u64)
    ensures vpn < TWO_63 && previousVpn < TWO_63 ==>
              AsSigned(AsSigned(vpn) - AsSigned(previousVpn)) == vpn - previousVpn
  {
    if vpn < TWO_63 && previousVpn < TWO_63 {
      SignedIdentity(vpn);
      SignedIdentity(previousVpn);
      SignedIdentity(vpn - previousVpn);
    }
  }

  /**
   * `vpn + (d << LOG2_PAGE_SIZE)` converted to `uint64_t`: the address `d`
   * pages away from `vpn`, with the same offset in its page.
   */
  function Target(vpn: u64, d: i64): (a: u64)
    ensures PageOf(a) == (PageOf(vpn) + d) % PAGE_COUNT
    ensures a % PAGE_SIZE == vpn % PAGE_SIZE
  {
    PageStep(vpn, d);
    Wrap64(vpn + d * PAGE_SIZE)
  }

  /**
   * A distance replays the step it was measured on: moving the earlier of
   * two addresses with the same page offset by their distance gives the
   * later one.
   */
  lemma DistanceReplays(vpn: u64, previousVpn: u64)
    requires vpn < TWO_63 && previousVpn < TWO_63
    requires vpn % PAGE_SIZE == previousVpn % PAGE_SIZE
    ensures Target(previousVpn, PageDistance(vpn, previousVpn)) == vpn
  {
    var d := PageDistance(vpn, previousVpn);
    assert vpn == (vpn / PAGE_SIZE) * PAGE_SIZE + vpn % PAGE_SIZE;
    assert previousVpn == (previousVpn / PAGE_SIZE) * PAGE_SIZE + previousVpn % PAGE_SIZE;
    assert vpn - previousVpn == d * PAGE_SIZE;
    WrapInRange(previousVpn + d * PAGE_SIZE);
  }

  /** `dp_entry`: the tag `distance` and the list of distances that followed it. */
  datatype DpEntry = DpEntry(distance: i64, lruList: seq<i64>) {

    /** `dp_entry::access_distance`: with a single slot, the list becomes exactly `[d]`. */
    function AccessDistance(d: i64): (e: DpEntry)
      ensures e.distance == distance
      ensures |lruList| <= SLOT_SIZE ==> e.lruList == [d]
    {
      var rest := MruList.Remove(lruList, d);
      assert |multiset(rest)| <= |multiset(lruList)|;
      DpEntry(distance, MruList.Touch(lruList, d, SLOT_SIZE))
    }
  }

  /**
   * `dp_entry::prefetch_slot`: for each listed distance, in order,
   * `prefetch_line(vpn + (d << LOG2_PAGE_SIZE), true, 1)` unless the cache
   * is warming up.
   */
  method PrefetchSlot(entry: DpEntry, vpn: u64, warmup: bool) returns (issued: seq<Request>)
    ensures warmup ==> issued == []
    ensures !warmup ==> |issued| == |entry.lruList|
    ensures !warmup ==> forall k :: 0 <= k < |issued| ==> issued[k] == Request(Target(vpn, entry.lruList[k]), true, 1)
  {
    issued := [];
    for k := 0 to |entry.lruList|
      invariant |issued| == (if warmup then 0 else k)
      invariant forall j :: 0 <= j < |issued| ==> issued[j] == Request(Target(vpn, entry.lruList[j]), true, 1)
    {
      var pfVpn := Target(vpn, entry.lruList[k]);
      if !warmup {
        issued := issued + [Request(pfVpn, true, 1)];
      }
    }
  }

  /** Every entry is stored under its own tag and holds at most one distance. */
  ghost predicate WellFormed(table: map<i64, DpEntry>)
  {
    forall k :: k in table ==> table[k].distance == k && |table[k].lruList| <= SLOT_SIZE
  }

  /**
   * The table after `initiate_lookahead` measured `distance` while
   * `previous_distance` was `prev`: a miss on `distance` fills an entry
   * with an empty list; then, if `prev` has an entry, `distance` is
   * recorded in it and written back.
   */
  function NextTable(table: map<i64, DpEntry>, prev: i64, distance: i64): map<i64, DpEntry>
  {
    var t1 := if distance in table then table else table[distance := DpEntry(distance, [])];
    if prev in t1 then t1[prev := t1[prev].AccessDistance(distance)] else t1
  }

  /**
   * The lookahead keeps the table well formed, adds the current distance
   * as a key, makes the previous distance's list exactly `[distance]` when
   * it has an entry, and leaves every other entry as it was.
   */
  lemma NextTableEffect(table: map<i64, DpEntry>, prev: i64, distance: i64)
    requires WellFormed(table)
    ensures var t := NextTable(table, prev, distance);
      && WellFormed(t)
      && t.Keys == table.Keys + {distance}
      && (prev in t ==> t[prev].lruList == [distance])
      && (distance !in table && prev != distance ==> t[distance] == DpEntry(distance, []))
      && (forall k :: k in table && k != prev && k != distance ==> t[k] == table[k])
  {
    var t1 := if distance in table then table else table[distance := DpEntry(distance, [])];
    assert WellFormed(t1);
  }

  /** The per-cache state of the plug-in (one element of `dps`). */
  class DistancePrefetcher {
    var previousVpn: u64
    var previousDistance: i64
    var table: map<i64, DpEntry>

    ghost predicate Valid()
      reads this
    {
      WellFormed(table)
    }

    /** A value-initialised `dp`: both previous values are 0 and the table is empty. */
    constructor ()
      ensures Valid() && previousVpn == 0 && previousDistance == 0 && table == map[]
    {
      previousVpn := 0;
      previousDistance := 0;
      table := map[];
    }

    /** `dp::initiate_lookahead` (its `metadata_in` argument is not used by the source). */
    method InitiateLookahead(vpn: u64, warmup: bool) returns (issued: seq<Request>)
      requires Valid()
      modifies this
      ensures Valid()
      ensures var d := PageDistance(vpn, old(previousVpn));
        && (d in old(table) && !warmup ==>
              |issued| == |old(table)[d].lruList| <= SLOT_SIZE &&
              forall k :: 0 <= k < |issued| ==> issued[k] == Request(Target(vpn, old(table)[d].lruList[k]), true, 1))
        && (d !in old(table) || warmup ==> issued == [])
        && table == NextTable(old(table), old(previousDistance), d)
        && previousVpn == vpn && previousDistance == d
    {
      var distance := PageDistance(vpn, previousVpn);
      NextTableEffect(table, previousDistance, distance);
      var found := CheckHit(table, distance);
      if found.Some? {
        issued := PrefetchSlot(found.value, vpn, warmup);
      } else {
        issued := [];
        table := table[distance := DpEntry(distance, [])];
      }
      var previousFound := CheckHit(table, previousDistance);
      if previousFound.Some? {
        var updated := previousFound.value.AccessDistance(distance);
        table := table[updated.distance := updated];
      }
      previousVpn := vpn;
      previousDistance := distance;
    }

    /** `prefetcher_cache_operate`: runs the lookahead on the address and returns `metadata_in` unchanged. */
    method CacheOperate(addr: u64, warmup: bool, metadataIn: u32) returns (r: u32, issued: seq<Request>)
      requires Valid()
      modifies this
      ensures Valid()
      ensures r == metadataIn
      ensures |issued| <= SLOT_SIZE
      ensures var d := PageDistance(addr, old(previousVpn));
        && (d in old(table) && !warmup ==>
              |issued| == |old(table)[d].lruList| &&
              forall k :: 0 <= k < |issued| ==> issued[k] == Request(Target(addr, old(table)[d].lruList[k]), true, 1))
        && (d !in old(table) || warmup ==> issued == [])
        && table == NextTable(old(table), old(previousDistance), d)
        && previousVpn == addr && previousDistance == d
    {
      issued := InitiateLookahead(addr, warmup);
      r := metadataIn;
    }
  }
}
