/**
 * The two-request next-page prefetcher of
 * prefetcher/sp_tlb_cache/sp_tlb_cache.cc. On a cache miss outside warmup
 * it prefetches the same offset one page ahead into this level, and a
 * second address `1 << (LOG2_PAGE_SIZE + LOG2_PAGE_SIZE / (LOG2_BLOCK_SIZE +
 * LOG2_PTE_SIZE))` bytes ahead into the lower level, with metadata 11.
 *
 * As written the function does not compile (`pf_addr` is declared twice in
 * one block, and the local constant is spelled `PTE_PYTES` while
 * `PTE_BYTES` is read); the model is the evident intent, two independent
 * requests, with `PTE_BYTES` = 8.
 */
module NextPageTlb {
  import opened Word
  import opened Champsim

  const PTE_BYTES: nat := 8
  const LOG2_PTE_SIZE: nat := 3
  /** The shift of the second request; the division is integer division. */
  const SECOND_SHIFT: nat := LOG2_PAGE_SIZE + LOG2_PAGE_SIZE / (LOG2_BLOCK_SIZE + LOG2_PTE_SIZE)

  /** The second request lies two pages ahead: 12 / 9 rounds down to 1. */
  lemma SecondShiftIsTwoPages()
    ensures Pow2(LOG2_PTE_SIZE) == PTE_BYTES
    ensures SECOND_SHIFT == 13 && Pow2(SECOND_SHIFT) == 2 * PAGE_SIZE
  {
  }

  /** `prefetcher_cache_operate`. */
  function CacheOperate(addr: u64, cacheHit: bool, warmup: bool, metadataIn: u32): (r: Reply)
    ensures r.metadata == metadataIn
    ensures |r.requests| == (if !cacheHit && !warmup then 2 else 0)
    ensures |r.requests| == 2 ==>
              && r.requests[0].fillThisLevel && r.requests[0].metadata == 1
              && PageOf(r.requests[0].addr) == (PageOf(addr) + 1) % PAGE_COUNT
              && r.requests[0].addr % PAGE_SIZE == addr % PAGE_SIZE
              && !r.requests[1].fillThisLevel && r.requests[1].metadata == 11
              && PageOf(r.requests[1].addr) == (PageOf(addr) + 2) % PAGE_COUNT
              && r.requests[1].addr % PAGE_SIZE == addr % PAGE_SIZE
  {
    Geometry();
    SecondShiftIsTwoPages();
    PageStep(addr, 1);
    PageStep(addr, 2);
    if !cacheHit && !warmup then
      Reply(metadataIn, [Request(Wrap64(addr + Pow2(LOG2_PAGE_SIZE)), true, 1),
                         Request(Wrap64(addr + Pow2(SECOND_SHIFT)), false, 11)])
    else
      Reply(metadataIn, [])
  }
}
