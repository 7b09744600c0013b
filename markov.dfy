/**
 * The Markov prefetcher (prefetcher/mp/mp.cc). The table remembers, for
 * each accessed address, the list of up to `SLOT_SIZE` addresses that were
 * accessed right after it, most recent first. On an access the list of the
 * current address is prefetched, and the current address is recorded in the
 * list of the previous one.
 *
 * `lru_list` holds `int64_t` in the source, but it only stores `uint64_t`
 * addresses and gives them back to `prefetch_line`; the conversion is a
 * bijection, so the model keeps the `uint64_t` values.
 */
module Markov {
  import opened Word
  import opened Champsim
  import MruList

  const MP_SETS: nat := 256
  const MP_WAYS: nat := 1
  const SLOT_SIZE: nat := 4

  /** `mp_entry`: the tag `vpn` and its successor list. */
  datatype MpEntry = MpEntry(vpn: u64, lruList: seq<u64>) {

    /** `mp_entry::access_vpn`. */
    function AccessVpn(v: u64): (e: MpEntry)
      ensures e.vpn == vpn
      ensures |e.lruList| > 0 && e.lruList[0] == v && multiset(e.lruList)[v] == 1
      ensures |lruList| <= SLOT_SIZE ==> |e.lruList| <= SLOT_SIZE
      ensures var rest := MruList.Remove(lruList, v);
        && |rest| - 1 <= |e.lruList| - 1 <= |rest|
        && e.lruList[1..] == rest[..|e.lruList| - 1]
        && (|e.lruList| - 1 < |rest| ==> |lruList| >= SLOT_SIZE)
    {
      MruList.TouchFront(lruList, v, SLOT_SIZE);
      MruList.TouchKeepsOrder(lruList, v, SLOT_SIZE);
      MruList.TouchBounded(lruList, v, SLOT_SIZE);
      MpEntry(vpn, MruList.Touch(lruList, v, SLOT_SIZE))
    }
  }

  /** `mp_entry::prefetch_slot`: one `prefetch_line(pf_vpn, true, metadata_in)` per list element, in list order. */
  method PrefetchSlot(entry: MpEntry, metadataIn: u32) returns (issued: seq<Request>)
    ensures |issued| == |entry.lruList|
    ensures forall k :: 0 <= k < |issued| ==> issued[k] == Request(entry.lruList[k], true, metadataIn)
  {
    issued := [];
    for k := 0 to |entry.lruList|
      invariant |issued| == k
      invariant forall j :: 0 <= j < k ==> issued[j] == Request(entry.lruList[j], true, metadataIn)
    {
      issued := issued + [Request(entry.lruList[k], true, metadataIn)];
    }
  }

  /** Every entry is stored under its own tag and its list fits its slots. */
  ghost predicate WellFormed(table: map<u64, MpEntry>)
  {
    forall k :: k in table ==> table[k].vpn == k && |table[k].lruList| <= SLOT_SIZE
  }

  /**
   * The table after `initiate_lookahead(vpn)` with `previous_vpn` equal to
   * `prev`: a miss on `vpn` fills an entry with an empty list; then, if
   * `prev` has an entry, `vpn` is recorded in its list and written back.
   */
  function NextTable(table: map<u64, MpEntry>, prev: u64, vpn: u64): map<u64, MpEntry>
  {
    var t1 := if vpn in table then table else table[vpn := MpEntry(vpn, [])];
    if prev in t1 then t1[prev := t1[prev].AccessVpn(vpn)] else t1
  }

  /** The lookahead keeps the table well formed. */
  lemma NextTableWellFormed(table: map<u64, MpEntry>, prev: u64, vpn: u64)
    requires WellFormed(table)
    ensures WellFormed(NextTable(table, prev, vpn))
  {
    var t1 := if vpn in table then table else table[vpn := MpEntry(vpn, [])];
    assert WellFormed(t1);
    if prev in t1 {
      var e := t1[prev].AccessVpn(vpn);
      assert e.vpn == prev && |e.lruList| <= SLOT_SIZE;
      assert NextTable(table, prev, vpn) == t1[prev := e];
    }
  }

  /** The lookahead adds exactly the current address as a key. */
  lemma NextTableKeys(table: map<u64, MpEntry>, prev: u64, vpn: u64)
    ensures NextTable(table, prev, vpn).Keys == table.Keys + {vpn}
  {
    var t1 := if vpn in table then table else table[vpn := MpEntry(vpn, [])];
    assert t1.Keys == table.Keys + {vpn};
    if prev in t1 {
      assert NextTable(table, prev, vpn).Keys == t1.Keys;
    }
  }

  /**
   * The previous address, when it has an entry (possibly the one just
   * filled), now lists the current address first and once; a new current
   * address starts with an empty list unless it is its own successor.
   */
  lemma NextTableRecordsSuccessor(table: map<u64, MpEntry>, prev: u64, vpn: u64)
    requires WellFormed(table)
    ensures var t := NextTable(table, prev, vpn);
      && (prev in table || prev == vpn ==> t[prev].lruList[0] == vpn && multiset(t[prev].lruList)[vpn] == 1)
      && (vpn !in table && prev != vpn ==> t[vpn] == MpEntry(vpn, []))
      && (vpn !in table && prev == vpn ==> t[vpn].lruList == [vpn])
  {
    if vpn !in table && prev == vpn {
      assert MruList.Remove([], vpn) == [];
    }
  }

  /** Entries other than those of the previous and the current address are untouched. */
  lemma NextTableFrame(table: map<u64, MpEntry>, prev: u64, vpn: u64)
    ensures var t := NextTable(table, prev, vpn);
      && (forall k :: k in table && k != prev && k != vpn ==> t[k] == table[k])
      && (vpn in table && vpn != prev ==> t[vpn] == table[vpn])
  {
  }

  /** The per-cache state of the plug-in (one element of `mps`). */
  class MarkovPrefetcher {
    var previousVpn: u64
    var table: map<u64, MpEntry>

    ghost predicate Valid()
      reads this
    {
      WellFormed(table)
    }

    /** A value-initialised `mp`: `previous_vpn` is 0 and the table is empty. */
    constructor ()
      ensures Valid() && previousVpn == 0 && table == map[]
    {
      previousVpn := 0;
      table := map[];
    }

    /** `mp::initiate_lookahead`. */
    method InitiateLookahead(vpn: u64, metadataIn: u32) returns (issued: seq<Request>)
      requires Valid()
      modifies this
      ensures Valid()
      ensures vpn in old(table) ==>
                |issued| == |old(table)[vpn].lruList| &&
                forall k :: 0 <= k < |issued| ==> issued[k] == Request(old(table)[vpn].lruList[k], true, metadataIn)
      ensures vpn !in old(table) ==> issued == []
      ensures table == NextTable(old(table), old(previousVpn), vpn)
      ensures previousVpn == vpn
    {
      NextTableWellFormed(table, previousVpn, vpn);
      var found := CheckHit(table, vpn);
      if found.Some? {
        issued := PrefetchSlot(found.value, metadataIn);
      } else {
        issued := [];
        table := table[vpn := MpEntry(vpn, [])];
      }
      var previousFound := CheckHit(table, previousVpn);
      if previousFound.Some? {
        var updated := previousFound.value.AccessVpn(vpn);
        table := table[updated.vpn := updated];
      }
      previousVpn := vpn;
    }

    /** `prefetcher_cache_operate`: the lookahead runs with metadata 1, and 1 is returned whatever came in. */
    method CacheOperate(addr: u64, metadataIn: u32) returns (r: u32, issued: seq<Request>)
      requires Valid()
      modifies this
      ensures Valid()
      ensures r == 1
      ensures addr in old(table) ==>
                |issued| == |old(table)[addr].lruList| &&
                forall k :: 0 <= k < |issued| ==> issued[k] == Request(old(table)[addr].lruList[k], true, 1)
      ensures addr !in old(table) ==> issued == []
      ensures table == NextTable(old(table), old(previousVpn), addr) && previousVpn == addr
    {
      r := 1;
      issued := InitiateLookahead(addr, r);
    }
  }
}
