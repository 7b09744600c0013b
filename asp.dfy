/**
 * The stride prefetcher of prefetcher/asp/asp.cc. It prefetches `delta`
 * pages ahead of the access, where `delta` is the stride unless the
 * confidence state is 2, in which case it is 0 (no prefetch). The model
 * keeps that condition exactly as written.
 */
module Asp {
  import opened Word
  import opened Champsim
  import opened StrideRule

  /**
   * `(state == 2) ? 0 : stride` as a `uint64_t`: zero exactly when the state
   * is 2 or the stride is 0; otherwise it is the stride.
   */
  function Delta(e: AspEntry): (d: u64)
    ensures d == 0 <==> e.state == 2 || e.stride == 0
    ensures d != 0 ==> AsSigned(d) == e.stride
  {
    SignedCompare(e.stride, 0);
    SignedRoundTrip(e.stride);
    Wrap64(if e.state == 2 then 0 else e.stride)
  }

  /** `addr + (delta << LOG2_PAGE_SIZE)` in `uint64_t`: the address `delta` pages (read as signed) away. */
  function PrefetchAddress(addr: u64, delta: u64): (a: u64)
    ensures a == Wrap64(addr + AsSigned(delta) * PAGE_SIZE)
    ensures PageOf(a) == (PageOf(addr) + AsSigned(delta)) % PAGE_COUNT && a % PAGE_SIZE == addr % PAGE_SIZE
  {
    ShiftedPages(addr, AsSigned(delta));
    PageStep(addr, AsSigned(delta));
    WrapInRange(delta);
    assert Wrap64(AsSigned(delta)) == delta;
    Wrap64(addr + ShiftLeft64(delta, LOG2_PAGE_SIZE))
  }

  /** The first access of an IP never prefetches. */
  lemma FirstAccessNoPrefetch(ip: u64, vpn: u64)
    ensures Delta(Next(None, ip, vpn)) == 0
  {
  }

  /** With a retained entry, pages `v`, `v+s`, `v+2s`, `v+3s` give deltas 0, s, s, 0. */
  lemma ConstantStrideDeltas(ip: u64, v: u64, s: i64)
    requires s != 0 && 0 <= v + 3 * s < TWO_64
    ensures var e1 := Next(None, ip, v);
      var e2 := Next(Some(e1), ip, v + s);
      var e3 := Next(Some(e2), ip, v + 2 * s);
      var e4 := Next(Some(e3), ip, v + 3 * s);
      && Delta(e1) == 0 && Delta(e2) == Wrap64(s) && Delta(e3) == Wrap64(s) && Delta(e4) == 0
  {
    ConstantStrideTrain(ip, v, s);
  }

  /** The per-cache state of the plug-in (one element of `asps`). */
  class AspPrefetcher {
    var table: map<u64, AspEntry>

    ghost predicate Valid()
      reads this
    {
      WellFormed(table)
    }

    constructor ()
      ensures Valid() && table == map[]
    {
      table := map[];
    }

    /** `asp::initiate_lookahead`: store the updated entry and return its delta. */
    method InitiateLookahead(ip: u64, vpn: u64) returns (delta: u64)
      requires Valid()
      modifies this
      ensures Valid()
      ensures table == old(table)[ip := Next(CheckHit(old(table), ip), ip, vpn)]
      ensures delta == Delta(table[ip])
    {
      NextKeepsWellFormed(table, ip, vpn);
      var found := CheckHit(table, ip);
      var entry := Next(found, ip, vpn);
      table := table[entry.ip := entry];
      delta := Delta(entry);
    }

    /**
     * `prefetcher_cache_operate`: one `prefetch_line(addr + (delta <<
     * LOG2_PAGE_SIZE), true, 1)` exactly when the delta is non-zero, i.e.
     * `stride` pages ahead; the return value is 1.
     */
    method CacheOperate(addr: u64, ip: u64, metadataIn: u32) returns (r: u32, issued: seq<Request>)
      requires Valid()
      modifies this
      ensures Valid()
      ensures var e := Next(CheckHit(old(table), ip), ip, PageOf(addr));
        && table == old(table)[ip := e]
        && (e.state == 2 || e.stride == 0 ==> issued == [])
        && (e.state != 2 && e.stride != 0 ==> issued == [Request(Wrap64(addr + e.stride * PAGE_SIZE), true, 1)])
      ensures r == 1
    {
      var delta := InitiateLookahead(ip, addr / PAGE_SIZE);
      r := 1;
      issued := [];
      if delta != 0 {
        var pfAddr := PrefetchAddress(addr, delta);
        issued := [Request(pfAddr, true, r)];
      }
    }
  }
}
