/**
 * The next-page prefetcher of prefetcher/sp/sp.cc: a stateless rule that,
 * on a cache miss outside warmup, prefetches the same offset one page
 * ahead.
 */
module NextPage {
  import opened Word
  import opened Champsim

  /** `prefetcher_cache_operate`. */
  function CacheOperate(addr: u64, cacheHit: bool, warmup: bool, metadataIn: u32): (r: Reply)
    ensures r.metadata == metadataIn
    ensures |r.requests| <= 1
    ensures r.requests != [] <==> !cacheHit && !warmup
    ensures forall k :: 0 <= k < |r.requests| ==>
              && r.requests[k].fillThisLevel && r.requests[k].metadata == 1
              && PageOf(r.requests[k].addr) == (PageOf(addr) + 1) % PAGE_COUNT
              && r.requests[k].addr % PAGE_SIZE == addr % PAGE_SIZE
  {
    Geometry();
    PageStep(addr, 1);
    if !cacheHit && !warmup then
      Reply(metadataIn, [Request(Wrap64(addr + Pow2(LOG2_PAGE_SIZE)), true, 1)])
    else
      Reply(metadataIn, [])
  }

  /** `prefetcher_cache_fill` returns `metadata_in` unchanged. */
  function CacheFill(addr: u64, metadataIn: u32): (r: u32)
    ensures r == metadataIn
  {
    metadataIn
  }
}
